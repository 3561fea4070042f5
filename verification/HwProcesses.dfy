/**
  Reducing the number of processes (reduce and tryToMerge in statement_to_hwprocess.cpp,
  groupedby.h).  A process takes in the later processes of its rank whose statements have
  the same condition tree.  Two versions are told apart: `v` of the check for the condition tree,
  and `w` of the merge, which as written drops the merged list and as intended keeps it.
*/
module HwProcesses {
  import opened Statements
  import opened StructuralCompatible
  import opened StructuralCmp
  import opened Merging
  import opened Reduce
  import opened Sensitivity

  datatype Proc = Proc(rank: nat, statements: seq<Stm>, sensitivity: set<Item>, inputs: set<Net>, outputs: set<Net>)

  // ---------- What a merge leaves in the first process ----------

  /**
    The first list after its ifs took in their partners.  The list that merging returns is
    dropped, so simple statements of the second process are in neither.
  */
  function TakenIn(a: seq<Stm>, b: seq<Stm>): (r: seq<Stm>)
    requires ElifsFitList(a, b)
    ensures |r| == |a|
    decreases a, 0, b
  {
    if SimpleFirst(a) then [a[0]] + TakenIn(a[1..], b)
    else if SimpleFirst(b) then TakenIn(a, b[1..])
    else if a == [] || b == [] then a
    else [MergeIf(a[0], b[0])] + TakenIn(a[1..], b[1..])
  }

  /** The statements of the first process after a merge: as written, or with the merged list kept. */
  function Joined(w: Version, a: seq<Stm>, b: seq<Stm>): seq<Stm>
    requires ElifsFitList(a, b)
  {
    match w
    case AsWritten => TakenIn(a, b)
    case Intended => MergeLists(a, b)
  }

  predicate TooSimple(p: Proc) {
    |p.statements| == 1 && p.statements[0].Assign?
  }

  /** An output of the first process is in the sensitivity list of the second. */
  predicate Feeds(a: Proc, b: Proc) {
    exists n :: n in a.outputs && NetItem(n) in b.sensitivity
  }

  predicate Compatible(v: Version, a: Proc, b: Proc) {
    !TooSimple(a) && !TooSimple(b) && !Feeds(a, b) && !Feeds(b, a) && IsMergableList(v, a.statements, b.statements)
  }

  function Merged(w: Version, a: Proc, b: Proc): Proc
    requires ElifsFitList(a.statements, b.statements)
  {
    Proc(a.rank, Joined(w, a.statements, b.statements), a.sensitivity + b.sensitivity,
         a.inputs + b.inputs, a.outputs + b.outputs)
  }

  // ---------- One group ----------

  datatype Swept = Swept(proc: Proc, rest: seq<Proc>, taken: seq<bool>)

  /** A process takes in what it can of the later ones; `taken` says which. */
  function Sweep(v: Version, w: Version, a: Proc, later: seq<Proc>): (r: Outcome<Swept>)
    ensures r.Done? ==> |r.value.taken| == |later| && |r.value.rest| <= |later|
    decreases |later|
  {
    if later == [] then Done(Swept(a, [], []))
    else if Compatible(v, a, later[0]) then
      if !ElifsFitList(a.statements, later[0].statements) then Failed(OutOfRange) else
        var r :- Sweep(v, w, Merged(w, a, later[0]), later[1..]);
        Done(r.(taken := [true] + r.taken))
    else
      var r :- Sweep(v, w, a, later[1..]);
      Done(Swept(r.proc, [later[0]] + r.rest, [false] + r.taken))
  }

  function ReduceGroup(v: Version, w: Version, procs: seq<Proc>): (r: Outcome<seq<Proc>>)
    ensures r.Done? ==> |r.value| <= |procs| && (procs != [] ==> r.value != [])
    decreases |procs|
  {
    if procs == [] then Done([]) else
      var s :- Sweep(v, w, procs[0], procs[1..]);
      var r :- ReduceGroup(v, w, s.rest);
      Done([s.proc] + r)
  }

  /** Where each process of a group ends: the position of its survivor. */
  function Into(v: Version, w: Version, procs: seq<Proc>): (into: seq<nat>)
    requires ReduceGroup(v, w, procs).Done?
    ensures |into| == |procs| && forall i :: 0 <= i < |into| ==> into[i] < |ReduceGroup(v, w, procs).value|
    decreases |procs|
  {
    if procs == [] then [] else
      var s := Sweep(v, w, procs[0], procs[1..]).value;
      SweepSizes(v, w, procs[0], procs[1..]);
      SpreadBelow(s.taken, Into(v, w, s.rest), |ReduceGroup(v, w, s.rest).value|);
      [0] + Spread(s.taken, Into(v, w, s.rest))
  }

  /** Survivor 0 for those taken, and for the others, in order, one past what `rest` says. */
  function Spread(taken: seq<bool>, rest: seq<nat>): (r: seq<nat>)
    requires Left(taken) == |rest|
    ensures |r| == |taken|
    decreases |taken|
  {
    if taken == [] then []
    else if taken[0] then [0] + Spread(taken[1..], rest)
    else [rest[0] + 1] + Spread(taken[1..], rest[1..])
  }

  function Left(taken: seq<bool>): nat {
    if taken == [] then 0 else (if taken[0] then 0 else 1) + Left(taken[1..])
  }

  lemma {:induction false} SweepSizes(v: Version, w: Version, a: Proc, later: seq<Proc>)
    requires Sweep(v, w, a, later).Done?
    ensures Left(Sweep(v, w, a, later).value.taken) == |Sweep(v, w, a, later).value.rest|
    decreases |later|
  {
    if later != [] {
      if Compatible(v, a, later[0]) {
        SweepSizes(v, w, Merged(w, a, later[0]), later[1..]);
      } else {
        SweepSizes(v, w, a, later[1..]);
      }
    }
  }

  lemma {:induction false} SpreadBelow(taken: seq<bool>, rest: seq<nat>, n: nat)
    requires Left(taken) == |rest| && forall k :: 0 <= k < |rest| ==> rest[k] < n
    ensures forall i :: 0 <= i < |taken| ==> Spread(taken, rest)[i] <= n
  {
    if taken != [] {
      SpreadBelow(taken[1..], if taken[0] then rest else rest[1..], n);
    }
  }

  // ---------- Nothing but content moves ----------

  /** One thing a process lists. */
  datatype Entry = Out(net: Net) | In(net: Net) | On(item: Item)

  predicate Has(p: Proc, x: Entry) {
    match x
    case Out(n) => n in p.outputs
    case In(n) => n in p.inputs
    case On(i) => i in p.sensitivity
  }

  ghost predicate SomeTaken(taken: seq<bool>, later: seq<Proc>, x: Entry)
    requires |taken| == |later|
  {
    exists i :: 0 <= i < |later| && taken[i] && Has(later[i], x)
  }

  lemma SomeTakenStep(taken: seq<bool>, later: seq<Proc>, x: Entry)
    requires |taken| == |later| > 0
    ensures SomeTaken(taken, later, x) <==> (taken[0] && Has(later[0], x)) || SomeTaken(taken[1..], later[1..], x)
  {
    if SomeTaken(taken[1..], later[1..], x) {
      var i :| 0 <= i < |later| - 1 && taken[1..][i] && Has(later[1..][i], x);
      assert taken[i + 1] && Has(later[i + 1], x);
    }
    if SomeTaken(taken, later, x) {
      var i :| 0 <= i < |later| && taken[i] && Has(later[i], x);
      if i > 0 {
        assert taken[1..][i - 1] && Has(later[1..][i - 1], x);
      }
    }
  }

  lemma {:induction false} SweepHas(v: Version, w: Version, a: Proc, later: seq<Proc>, x: Entry)
    requires Sweep(v, w, a, later).Done?
    ensures var s := Sweep(v, w, a, later).value; Has(s.proc, x) <==> Has(a, x) || SomeTaken(s.taken, later, x)
    decreases |later|
  {
    if later != [] {
      SomeTakenStep(Sweep(v, w, a, later).value.taken, later, x);
      var a' := if Compatible(v, a, later[0]) then Merged(w, a, later[0]) else a;
      SweepHas(v, w, a', later[1..], x);
      var s := Sweep(v, w, a', later[1..]).value;
      assert Sweep(v, w, a, later).value.taken[1..] == s.taken;
    }
  }

  /** Some process that ends in survivor `k` lists `x`. */
  ghost predicate SomeInto(procs: seq<Proc>, into: seq<nat>, k: nat, x: Entry)
    requires |into| == |procs|
  {
    exists i :: 0 <= i < |procs| && into[i] == k && Has(procs[i], x)
  }

  lemma SomeIntoStep(procs: seq<Proc>, into: seq<nat>, k: nat, x: Entry)
    requires |into| == |procs| > 0
    ensures SomeInto(procs, into, k, x) <==> (into[0] == k && Has(procs[0], x)) || SomeInto(procs[1..], into[1..], k, x)
  {
    if SomeInto(procs[1..], into[1..], k, x) {
      var i :| 0 <= i < |procs| - 1 && into[1..][i] == k && Has(procs[1..][i], x);
      assert into[i + 1] == k && Has(procs[i + 1], x);
    }
    if SomeInto(procs, into, k, x) {
      var i :| 0 <= i < |procs| && into[i] == k && Has(procs[i], x);
      if i > 0 {
        assert into[1..][i - 1] == k && Has(procs[1..][i - 1], x);
      }
    }
  }

  /** Survivor 0 collects what was taken, the others what they did in `rest`. */
  ghost predicate Tracked(later: seq<Proc>, s: Swept, into: seq<nat>, k: nat, x: Entry) {
    && |s.taken| == |later| && Left(s.taken) == |into| == |s.rest|
    && (SomeInto(later, Spread(s.taken, into), 0, x) <==> SomeTaken(s.taken, later, x))
    && (SomeInto(later, Spread(s.taken, into), k + 1, x) <==> SomeInto(s.rest, into, k, x))
  }

  lemma TrackedTaken(b: Proc, l: seq<Proc>, s: Swept, s': Swept, into: seq<nat>, k: nat, x: Entry)
    requires Tracked(l, s', into, k, x) && s.taken == [true] + s'.taken && s.rest == s'.rest
    ensures Tracked([b] + l, s, into, k, x)
  {
    var later := [b] + l;
    assert later[1..] == l && s.taken[1..] == s'.taken;
    assert Spread(s.taken, into) == [0] + Spread(s'.taken, into);
    assert Spread(s.taken, into)[1..] == Spread(s'.taken, into);
    SomeTakenStep(s.taken, later, x);
    SomeIntoStep(later, Spread(s.taken, into), 0, x);
    SomeIntoStep(later, Spread(s.taken, into), k + 1, x);
  }

  lemma TrackedPassed(b: Proc, l: seq<Proc>, s: Swept, s': Swept, into: seq<nat>, k: nat, x: Entry)
    requires into != [] && Tracked(l, s', into[1..], k, x) && s.taken == [false] + s'.taken && s.rest == [b] + s'.rest
    ensures Tracked([b] + l, s, into, k, x)
  {
    var later := [b] + l;
    assert later[1..] == l && s.taken[1..] == s'.taken && s.rest[1..] == s'.rest;
    assert Spread(s.taken, into) == [into[0] + 1] + Spread(s'.taken, into[1..]);
    assert Spread(s.taken, into)[1..] == Spread(s'.taken, into[1..]);
    SomeTakenStep(s.taken, later, x);
    SomeIntoStep(later, Spread(s.taken, into), 0, x);
    SomeIntoStep(later, Spread(s.taken, into), k + 1, x);
    SomeIntoStep(s.rest, into, k, x);
  }

  /** Spreading keeps track of who ends where. */
  lemma {:induction false} SpreadHas(v: Version, w: Version, a: Proc, later: seq<Proc>, into: seq<nat>,
                                     k: nat, x: Entry)
    requires Sweep(v, w, a, later).Done? && |into| == |Sweep(v, w, a, later).value.rest|
    ensures Tracked(later, Sweep(v, w, a, later).value, into, k, x)
    decreases |later|
  {
    SweepSizes(v, w, a, later);
    if later != [] {
      var s := Sweep(v, w, a, later).value;
      assert later == [later[0]] + later[1..];
      if Compatible(v, a, later[0]) {
        SpreadHas(v, w, Merged(w, a, later[0]), later[1..], into, k, x);
        TrackedTaken(later[0], later[1..], s, Sweep(v, w, Merged(w, a, later[0]), later[1..]).value, into, k, x);
      } else {
        SpreadHas(v, w, a, later[1..], into[1..], k, x);
        TrackedPassed(later[0], later[1..], s, Sweep(v, w, a, later[1..]).value, into, k, x);
      }
    }
  }

  lemma IntoUnfolds(v: Version, w: Version, procs: seq<Proc>)
    requires procs != [] && ReduceGroup(v, w, procs).Done?
    ensures var s := Sweep(v, w, procs[0], procs[1..]);
      && s.Done? && ReduceGroup(v, w, s.value.rest).Done?
      && ReduceGroup(v, w, procs).value == [s.value.proc] + ReduceGroup(v, w, s.value.rest).value
      && Left(s.value.taken) == |Into(v, w, s.value.rest)|
      && Into(v, w, procs) == [0] + Spread(s.value.taken, Into(v, w, s.value.rest))
  {
    SweepSizes(v, w, procs[0], procs[1..]);
  }

  /** Who ends in the first survivor: the first process and those it took in. */
  lemma EndsInFirst(v: Version, w: Version, a: Proc, later: seq<Proc>, into: seq<nat>, x: Entry)
    requires Sweep(v, w, a, later).Done? && |into| == |Sweep(v, w, a, later).value.rest|
    ensures Left(Sweep(v, w, a, later).value.taken) == |into|
    ensures Has(Sweep(v, w, a, later).value.proc, x)
       <==> SomeInto([a] + later, [0] + Spread(Sweep(v, w, a, later).value.taken, into), 0, x)
  {
    SweepHas(v, w, a, later, x);
    SpreadHas(v, w, a, later, into, 0, x);
    InFront(a, later, Spread(Sweep(v, w, a, later).value.taken, into), 0, x);
  }

  /** Who ends in a later one: those that end there among the processes passed over. */
  lemma EndsInLater(v: Version, w: Version, a: Proc, later: seq<Proc>, into: seq<nat>, k: nat, x: Entry)
    requires Sweep(v, w, a, later).Done? && |into| == |Sweep(v, w, a, later).value.rest|
    ensures Left(Sweep(v, w, a, later).value.taken) == |into|
    ensures SomeInto(Sweep(v, w, a, later).value.rest, into, k, x)
       <==> SomeInto([a] + later, [0] + Spread(Sweep(v, w, a, later).value.taken, into), k + 1, x)
  {
    SpreadHas(v, w, a, later, into, k, x);
    InFront(a, later, Spread(Sweep(v, w, a, later).value.taken, into), k + 1, x);
  }

  lemma InFront(a: Proc, later: seq<Proc>, into: seq<nat>, k: nat, x: Entry)
    requires |into| == |later|
    ensures SomeInto([a] + later, [0] + into, k, x) <==> (k == 0 && Has(a, x)) || SomeInto(later, into, k, x)
  {
    SomeIntoStep([a] + later, [0] + into, k, x);
    assert ([a] + later)[1..] == later && ([0] + into)[1..] == into;
  }

  /**
    Every process ends in exactly one survivor, which lists precisely what the processes
    that ended in it listed: outputs, inputs and sensitivities are only moved.
  */
  lemma {:induction false} EachEndsInOne(v: Version, w: Version, procs: seq<Proc>, k: nat, x: Entry)
    requires ReduceGroup(v, w, procs).Done? && k < |ReduceGroup(v, w, procs).value|
    ensures Has(ReduceGroup(v, w, procs).value[k], x) <==> SomeInto(procs, Into(v, w, procs), k, x)
    decreases |procs|
  {
    IntoUnfolds(v, w, procs);
    var s := Sweep(v, w, procs[0], procs[1..]).value;
    assert procs == [procs[0]] + procs[1..];
    if k == 0 {
      EndsInFirst(v, w, procs[0], procs[1..], Into(v, w, s.rest), x);
    } else {
      EachEndsInOne(v, w, s.rest, k - 1, x);
      EndsInLater(v, w, procs[0], procs[1..], Into(v, w, s.rest), k - 1, x);
    }
  }

  /** No survivor comes from nowhere. */
  lemma {:induction false} SurvivorsHaveSource(v: Version, w: Version, procs: seq<Proc>, k: nat)
    requires ReduceGroup(v, w, procs).Done? && k < |ReduceGroup(v, w, procs).value|
    ensures k in Into(v, w, procs)
    decreases |procs|
  {
    IntoUnfolds(v, w, procs);
    if k == 0 {
      assert Into(v, w, procs)[0] == 0;
    } else {
      var s := Sweep(v, w, procs[0], procs[1..]).value;
      SurvivorsHaveSource(v, w, s.rest, k - 1);
      SpreadReaches(s.taken, Into(v, w, s.rest), k - 1);
      InFrontOf(Spread(s.taken, Into(v, w, s.rest)), k);
    }
  }

  lemma InFrontOf(l: seq<nat>, k: nat)
    requires k in l
    ensures k in [0] + l
  {
  }

  lemma {:induction false} SpreadReaches(taken: seq<bool>, rest: seq<nat>, k: nat)
    requires Left(taken) == |rest| && k in rest
    ensures k + 1 in Spread(taken, rest)
  {
    if taken[0] {
      SpreadReaches(taken[1..], rest, k);
    } else if rest[0] != k {
      SpreadReaches(taken[1..], rest[1..], k);
    }
  }

  // ---------- No loop appears ----------

  /** No output of the process is in its own sensitivity list. */
  predicate LoopFree(p: Proc) {
    forall n :: n in p.outputs ==> NetItem(n) !in p.sensitivity
  }

  lemma MergedLoopFree(w: Version, a: Proc, b: Proc)
    requires LoopFree(a) && LoopFree(b) && !Feeds(a, b) && !Feeds(b, a) && ElifsFitList(a.statements, b.statements)
    ensures LoopFree(Merged(w, a, b))
  {
    forall n | n in a.outputs + b.outputs ensures NetItem(n) !in a.sensitivity + b.sensitivity {
    }
  }

  lemma {:induction false} SweepLoopFree(v: Version, w: Version, a: Proc, later: seq<Proc>)
    requires Sweep(v, w, a, later).Done? && LoopFree(a) && forall p :: p in later ==> LoopFree(p)
    ensures LoopFree(Sweep(v, w, a, later).value.proc)
    ensures forall p :: p in Sweep(v, w, a, later).value.rest ==> LoopFree(p)
    decreases |later|
  {
    if later != [] {
      assert LoopFree(later[0]);
      if Compatible(v, a, later[0]) {
        MergedLoopFree(w, a, later[0]);
        SweepLoopFree(v, w, Merged(w, a, later[0]), later[1..]);
      } else {
        SweepLoopFree(v, w, a, later[1..]);
      }
    }
  }

  /** If no process is sensitive to its own output, no survivor is. */
  lemma {:induction false} ReduceLoopFree(v: Version, w: Version, procs: seq<Proc>)
    requires ReduceGroup(v, w, procs).Done? && forall p :: p in procs ==> LoopFree(p)
    ensures forall p :: p in ReduceGroup(v, w, procs).value ==> LoopFree(p)
    decreases |procs|
  {
    if procs != [] {
      SweepLoopFree(v, w, procs[0], procs[1..]);
      ReduceLoopFree(v, w, Sweep(v, w, procs[0], procs[1..]).value.rest);
    }
  }

  // ---------- What happens to the statements ----------

  /** The statements of a list that need merging. */
  function Branching(l: seq<Stm>): seq<Stm> {
    if l == [] then [] else (if Rank(l[0]) > 0 then [l[0]] else []) + Branching(l[1..])
  }

  /** What a merge carries over of the second list. */
  function Part(w: Version, l: seq<Stm>): seq<Stm> {
    match w
    case AsWritten => Branching(l)
    case Intended => l
  }

  lemma BranchingStep(s: Stm, l: seq<Stm>, env: Env)
    ensures Branching([s] + l) == if Rank(s) > 0 then [s] + Branching(l) else Branching(l)
    ensures ExecList([s] + l, env) == Exec(s, env) + ExecList(l, env)
    ensures OutputsOfList([s] + l) == Outputs(s) + OutputsOfList(l)
  {
    assert ([s] + l)[1..] == l;
  }

  lemma {:induction false} BranchingKeeps(l: seq<Stm>)
    ensures OutputsOfList(Branching(l)) <= OutputsOfList(l)
    ensures OneDriverList(l) ==> OneDriverList(Branching(l))
    ensures ElseGivenList(l) ==> ElseGivenList(Branching(l))
  {
    if l != [] {
      BranchingKeeps(l[1..]);
      assert [] + Branching(l[1..]) == Branching(l[1..]);
      assert ([l[0]] + Branching(l[1..]))[1..] == Branching(l[1..]);
    }
  }

  /** As written, the first process ends up with its own writes and those of the branching statements of the second. */
  lemma {:induction false} TakenInMeaning(a: seq<Stm>, b: seq<Stm>, env: Env)
    requires Pair(a, b)
    ensures ElifsFitList(a, b)
    ensures ExecList(TakenIn(a, b), env) == ExecList(a, env) + ExecList(Branching(b), env)
    decreases a, 0, b
  {
    MergableFitsList(a, b);
    ListWritesAreOutputs(a, env);
    var m := TakenIn(a, b);
    if SimpleFirst(a) {
      TakenInMeaning(a[1..], b, env);
      assert m[1..] == TakenIn(a[1..], b);
      MovePast(Exec(a[0], env), ExecList(a[1..], env), ExecList(Branching(b), env));
    } else if SimpleFirst(b) {
      TakenInMeaning(a, b[1..], env);
      assert Branching(b) == Branching(b[1..]);
    } else if a != [] {
      assert b == [b[0]] + b[1..];
      BranchingStep(b[0], b[1..], env);
      BranchingStep(b[0], Branching(b[1..]), env);
      MergeIfMeaning(a[0], b[0], env);
      TakenInMeaning(a[1..], b[1..], env);
      assert m[1..] == TakenIn(a[1..], b[1..]);
      WritesAreOutputs(b[0], env);
      SwapMiddle(Exec(a[0], env), Exec(b[0], env), ExecList(a[1..], env), ExecList(Branching(b[1..]), env));
    }
  }

  lemma {:induction false} TakenInKeeps(a: seq<Stm>, b: seq<Stm>)
    requires Pair(a, b)
    ensures ElifsFitList(a, b)
    ensures OutputsOfList(TakenIn(a, b)) == OutputsOfList(a) + OutputsOfList(Branching(b))
    ensures OneDriverList(TakenIn(a, b))
    decreases a, 0, b
  {
    MergableFitsList(a, b);
    var m := TakenIn(a, b);
    BranchingKeeps(b);
    if SimpleFirst(a) {
      TakenInKeeps(a[1..], b);
      assert m[1..] == TakenIn(a[1..], b);
    } else if SimpleFirst(b) {
      TakenInKeeps(a, b[1..]);
      assert Branching(b) == Branching(b[1..]);
    } else if a != [] {
      assert b == [b[0]] + b[1..];
      BranchingKeeps(b[1..]);
      assert Branching(b)[1..] == Branching(b[1..]);
      MergeIfKeeps(a[0], b[0]);
      TakenInKeeps(a[1..], b[1..]);
      assert m[1..] == TakenIn(a[1..], b[1..]);
    }
  }

  lemma {:induction false} TakenInElseGiven(a: seq<Stm>, b: seq<Stm>)
    requires IsMergableList(Intended, a, b) && ElseGivenList(a) && ElseGivenList(b)
    ensures ElifsFitList(a, b) && ElseGivenList(TakenIn(a, b))
    decreases a, 0, b
  {
    MergableFitsList(a, b);
    var m := TakenIn(a, b);
    if SimpleFirst(a) {
      TakenInElseGiven(a[1..], b);
      assert m[1..] == TakenIn(a[1..], b);
    } else if SimpleFirst(b) {
      TakenInElseGiven(a, b[1..]);
    } else if a != [] {
      MergeIfElseGiven(a[0], b[0]);
      TakenInElseGiven(a[1..], b[1..]);
      assert m[1..] == TakenIn(a[1..], b[1..]);
    }
  }

  /** Either way, the first process writes what it wrote and what is carried over of the second. */
  lemma JoinedMeaning(w: Version, a: seq<Stm>, b: seq<Stm>, env: Env)
    requires Pair(a, b)
    ensures ElifsFitList(a, b)
    ensures var m := Joined(w, a, b);
      && ElseGivenList(m) && OneDriverList(m)
      && OutputsOfList(m) == OutputsOfList(a) + OutputsOfList(Part(w, b))
      && ExecList(m, env) == ExecList(a, env) + ExecList(Part(w, b), env)
  {
    match w
    case AsWritten =>
      TakenInMeaning(a, b, env);
      TakenInKeeps(a, b);
      TakenInElseGiven(a, b);
    case Intended =>
      MergeListsMeaning(a, b, env);
      MergeListsKeeps(a, b);
  }

  lemma PartKeeps(w: Version, l: seq<Stm>)
    requires OneDriverList(l) && ElseGivenList(l)
    ensures OneDriverList(Part(w, l)) && ElseGivenList(Part(w, l)) && OutputsOfList(Part(w, l)) <= OutputsOfList(l)
  {
    BranchingKeeps(l);
  }

  // ---------- When taking in loses nothing ----------

  /** No assignment outside an if. */
  predicate NoAssign(l: seq<Stm>) {
    forall s :: s in l ==> s.If?
  }

  /** The rank counts branches: an if of rank zero has none. */
  predicate EmptyAtZero(l: seq<Stm>) {
    forall s :: s in l && s.If? && s.rank == 0 ==> s.ifTrue == [] && s.elseIf == [] && s.ifFalse == []
  }

  lemma {:induction false} BranchingSuffices(l: seq<Stm>, env: Env)
    requires NoAssign(l) && EmptyAtZero(l)
    ensures ExecList(Branching(l), env) == ExecList(l, env)
  {
    if l != [] {
      assert l[0] in l && l == [l[0]] + l[1..];
      BranchingStep(l[0], l[1..], env);
      BranchingStep(l[0], Branching(l[1..]), env);
      BranchingSuffices(l[1..], env);
    }
  }

  lemma BranchingOutputs(s: Stm, l: seq<Stm>)
    ensures OutputsOfList(Branching([s] + l))
         == (if Rank(s) > 0 then Outputs(s) else {}) + OutputsOfList(Branching(l))
    ensures OutputsOfList([s] + l) == Outputs(s) + OutputsOfList(l)
  {
    assert ([s] + l)[1..] == l && ([s] + Branching(l))[1..] == Branching(l);
    assert [] + Branching(l) == Branching(l);
  }

  /** An assignment at the top of a one-driver list drives a net no branching statement of the list drives. */
  lemma {:induction false} SimpleOutput(l: seq<Stm>, k: nat)
    requires OneDriverList(l) && k < |l| && l[k].Assign?
    ensures l[k].dst in OutputsOfList(l) && l[k].dst !in OutputsOfList(Branching(l))
  {
    BranchingKeeps(l[1..]);
    BranchingOutputs(l[0], l[1..]);
    assert l == [l[0]] + l[1..];
    if k > 0 {
      SimpleOutput(l[1..], k - 1);
    }
  }

  lemma {:induction false} SimpleWritten(l: seq<Stm>, k: nat, env: Env)
    requires k < |l| && l[k].Assign?
    ensures l[k].dst in ExecList(l, env)
  {
    if k > 0 {
      SimpleWritten(l[1..], k - 1, env);
    }
  }

  /** Taking `b` into `a` loses no write and adds none, in any environment. */
  ghost predicate KeepsWrites(a: seq<Stm>, b: seq<Stm>)
    requires ElifsFitList(a, b)
  {
    forall env: Env :: ExecList(TakenIn(a, b), env) == ExecList(a, env) + ExecList(b, env)
  }

  /** The net of an assignment at the top of the process taken in is no longer written. */
  lemma TakingInLoses(a: seq<Stm>, b: seq<Stm>, k: nat, env: Env)
    requires Pair(a, b) && k < |b| && b[k].Assign?
    ensures ElifsFitList(a, b)
    ensures b[k].dst in ExecList(b, env) && b[k].dst !in ExecList(TakenIn(a, b), env)
  {
    TakenInKeeps(a, b);
    SimpleOutput(b, k);
    SimpleWritten(b, k, env);
    ListWritesAreOutputs(TakenIn(a, b), env);
  }

  lemma SomeAssign(b: seq<Stm>) returns (k: nat)
    requires !NoAssign(b)
    ensures k < |b| && b[k].Assign?
  {
    var s :| s in b && s.Assign?;
    k :| 0 <= k < |b| && b[k] == s;
  }

  /**
    Taking in another process keeps what the two write, in every environment, exactly when
    that process has no assignment at its top.
  */
  lemma TakingInKeepsWrites(a: seq<Stm>, b: seq<Stm>)
    requires Pair(a, b) && EmptyAtZero(b)
    ensures ElifsFitList(a, b) && (KeepsWrites(a, b) <==> NoAssign(b))
  {
    MergableFitsList(a, b);
    if NoAssign(b) {
      forall env: Env ensures ExecList(TakenIn(a, b), env) == ExecList(a, env) + ExecList(b, env) {
        TakenInMeaning(a, b, env);
        BranchingSuffices(b, env);
      }
    } else {
      var k := SomeAssign(b);
      var env: Env := _ => 0;
      TakingInLoses(a, b, k, env);
      assert ExecList(TakenIn(a, b), env) != ExecList(a, env) + ExecList(b, env);
    }
  }

  /** The loss on two concrete processes with one if and one assignment each. */
  lemma TakingInLosesWrite()
    ensures
      var a := [If(0, [Assign(5, [], 1)], [], false, [], 1)];
      var b := [Assign(6, [], 1), If(0, [Assign(7, [], 1)], [], false, [], 1)];
      var env: Env := _ => 0;
      Pair(a, b) && ElifsFitList(a, b) && 6 in ExecList(b, env) && 6 !in ExecList(TakenIn(a, b), env)
  {
    var a := [If(0, [Assign(5, [], 1)], [], false, [], 1)];
    var b := [Assign(6, [], 1), If(0, [Assign(7, [], 1)], [], false, [], 1)];
    var env: Env := _ => 0;
    var b1 := b[1..];
    assert b1 == [If(0, [Assign(7, [], 1)], [], false, [], 1)];
    assert a[1..] == [] && b1[1..] == [];
    assert IsMergableList(Intended, [Assign(5, [], 1)], [Assign(7, [], 1)]) by {
      assert [Assign(5, [], 1)][1..] == [] && [Assign(7, [], 1)][1..] == [];
    }
    TakingInLoses(a, b, 0, env);
  }

  // ---------- A whole group ----------

  function AllWrites(procs: seq<Proc>, env: Env): Writes {
    if procs == [] then map[] else ExecList(procs[0].statements, env) + AllWrites(procs[1..], env)
  }

  function AllOutputs(procs: seq<Proc>): set<Net> {
    if procs == [] then {} else OutputsOfList(procs[0].statements) + AllOutputs(procs[1..])
  }

  /** Every net has one driver among all processes. */
  predicate Sound(procs: seq<Proc>) {
    procs == [] || (
      && ElseGivenList(procs[0].statements) && OneDriverList(procs[0].statements)
      && OutputsOfList(procs[0].statements) !! AllOutputs(procs[1..]) && Sound(procs[1..]))
  }

  lemma {:induction false} AllWritesAreOutputs(procs: seq<Proc>, env: Env)
    ensures AllWrites(procs, env).Keys <= AllOutputs(procs)
  {
    if procs != [] {
      ListWritesAreOutputs(procs[0].statements, env);
      AllWritesAreOutputs(procs[1..], env);
    }
  }

  /** A process in front of the others. */
  lemma Front(p: Proc, rest: seq<Proc>, env: Env)
    ensures Sound([p] + rest) <==>
      && ElseGivenList(p.statements) && OneDriverList(p.statements)
      && OutputsOfList(p.statements) !! AllOutputs(rest) && Sound(rest)
    ensures AllOutputs([p] + rest) == OutputsOfList(p.statements) + AllOutputs(rest)
    ensures AllWrites([p] + rest, env) == ExecList(p.statements, env) + AllWrites(rest, env)
  {
    assert ([p] + rest)[1..] == rest;
  }

  /** The order of two neighbours does not matter. */
  lemma Swap(a: Proc, b: Proc, l: seq<Proc>, env: Env)
    requires Sound([a] + ([b] + l))
    ensures Sound([b] + ([a] + l)) && AllOutputs([b] + ([a] + l)) == AllOutputs([a] + ([b] + l))
    ensures AllWrites([b] + ([a] + l), env) == AllWrites([a] + ([b] + l), env)
  {
    Front(a, [b] + l, env);
    Front(b, l, env);
    Front(b, [a] + l, env);
    Front(a, l, env);
    ListWritesAreOutputs(a.statements, env);
    ListWritesAreOutputs(b.statements, env);
    MovePast(ExecList(a.statements, env), ExecList(b.statements, env), AllWrites(l, env));
  }

  /** Which processes of a group are taken into another one. */
  function TakenAway(v: Version, w: Version, procs: seq<Proc>): (r: seq<bool>)
    requires ReduceGroup(v, w, procs).Done?
    ensures |r| == |procs|
    decreases |procs|
  {
    if procs == [] then [] else
      var s := Sweep(v, w, procs[0], procs[1..]).value;
      SweepSizes(v, w, procs[0], procs[1..]);
      [false] + Mark(s.taken, TakenAway(v, w, s.rest))
  }

  /** Those taken now are marked, the others are marked as `rest` says. */
  function Mark(taken: seq<bool>, rest: seq<bool>): (r: seq<bool>)
    requires Left(taken) == |rest|
    ensures |r| == |taken|
    decreases |taken|
  {
    if taken == [] then []
    else if taken[0] then [true] + Mark(taken[1..], rest)
    else [rest[0]] + Mark(taken[1..], rest[1..])
  }

  /** Some position before `i` has the same number. */
  ghost predicate EarlierSame(into: seq<nat>, i: nat)
    requires i < |into|
  {
    exists j :: 0 <= j < i && into[j] == into[i]
  }

  lemma EarlierStep(first: nat, rest: seq<nat>, i: nat)
    requires i < |rest|
    ensures EarlierSame([first] + rest, i + 1) <==> first == rest[i] || EarlierSame(rest, i)
    ensures !EarlierSame([first] + rest, 0)
  {
    var all := [first] + rest;
    if EarlierSame(all, i + 1) {
      var j :| 0 <= j < i + 1 && all[j] == all[i + 1];
      assert j > 0 ==> rest[j - 1] == rest[i];
    }
    if EarlierSame(rest, i) {
      var j :| 0 <= j < i && rest[j] == rest[i];
      assert all[j + 1] == all[i + 1];
    }
    assert first == rest[i] ==> all[0] == all[i + 1];
  }

  lemma {:induction false} MarkSpread(taken: seq<bool>, into: seq<nat>, away: seq<bool>, seen: set<nat>, i: nat)
    requires Left(taken) == |into| == |away| && i < |taken|
    requires forall m: nat :: m < |into| ==> (away[m] <==> into[m] in seen || EarlierSame(into, m))
    ensures var x := Spread(taken, into)[i];
      Mark(taken, away)[i] <==> x == 0 || x - 1 in seen || EarlierSame(Spread(taken, into), i)
    decreases |taken|
  {
    var x := Spread(taken, into)[i];
    if taken[0] {
      if i > 0 {
        MarkSpread(taken[1..], into, away, seen, i - 1);
        EarlierStep(0, Spread(taken[1..], into), i - 1);
      }
    } else {
      var rest := Spread(taken[1..], into[1..]);
      assert into == [into[0]] + into[1..];
      assert away[0] <==> into[0] in seen || EarlierSame(into, 0);
      if i > 0 {
        forall m: nat | m < |into| - 1
          ensures away[1..][m] <==> into[1..][m] in seen + {into[0]} || EarlierSame(into[1..], m)
        {
          EarlierStep(into[0], into[1..], m);
          assert away[m + 1] <==> into[m + 1] in seen || EarlierSame(into, m + 1);
        }
        MarkSpread(taken[1..], into[1..], away[1..], seen + {into[0]}, i - 1);
        EarlierStep(into[0] + 1, rest, i - 1);
      }
    }
  }

  lemma AwayUnfolds(v: Version, w: Version, procs: seq<Proc>)
    requires procs != [] && ReduceGroup(v, w, procs).Done?
    ensures var s := Sweep(v, w, procs[0], procs[1..]).value;
      && Left(s.taken) == |TakenAway(v, w, s.rest)|
      && TakenAway(v, w, procs) == [false] + Mark(s.taken, TakenAway(v, w, s.rest))
  {
    SweepSizes(v, w, procs[0], procs[1..]);
  }

  /** A process is taken away exactly when one in front of it ends in the same survivor. */
  lemma {:induction false} TakenAwayInto(v: Version, w: Version, procs: seq<Proc>, i: nat)
    requires ReduceGroup(v, w, procs).Done? && i < |procs|
    ensures TakenAway(v, w, procs)[i] <==> EarlierSame(Into(v, w, procs), i)
    decreases |procs|
  {
    IntoUnfolds(v, w, procs);
    AwayUnfolds(v, w, procs);
    if i > 0 {
      var s := Sweep(v, w, procs[0], procs[1..]).value;
      var into, away := Into(v, w, s.rest), TakenAway(v, w, s.rest);
      forall m: nat | m < |into| ensures away[m] <==> into[m] in {} || EarlierSame(into, m) {
        TakenAwayInto(v, w, s.rest, m);
      }
      MarkSpread(s.taken, into, away, {}, i - 1);
      EarlierStep(0, Spread(s.taken, into), i - 1);
    }
  }

  /** The processes with those taken away cut down to what a merge carries over of them. */
  function Strip(w: Version, procs: seq<Proc>, away: seq<bool>): (r: seq<Proc>)
    requires |procs| == |away|
    ensures |r| == |procs|
  {
    if procs == [] then []
    else [Stripped(w, procs[0], away[0])] + Strip(w, procs[1..], away[1..])
  }

  function Stripped(w: Version, p: Proc, away: bool): Proc {
    if away then p.(statements := Part(w, p.statements)) else p
  }

  lemma {:induction false} StripKeeps(w: Version, procs: seq<Proc>, away: seq<bool>)
    requires |procs| == |away| && Sound(procs)
    ensures Sound(Strip(w, procs, away)) && AllOutputs(Strip(w, procs, away)) <= AllOutputs(procs)
  {
    if procs != [] {
      StripKeeps(w, procs[1..], away[1..]);
      PartKeeps(w, procs[0].statements);
      assert Strip(w, procs, away)[1..] == Strip(w, procs[1..], away[1..]);
    }
  }

  lemma StripCons(w: Version, p: Proc, procs: seq<Proc>, away: seq<bool>)
    requires |away| == |procs| + 1
    ensures Strip(w, [p] + procs, away) == [Stripped(w, p, away[0])] + Strip(w, procs, away[1..])
  {
    assert ([p] + procs)[1..] == procs;
  }

  lemma MergedSound(w: Version, a: Proc, b: Proc, rest: seq<Proc>, env: Env)
    requires Sound([a] + ([b] + rest)) && IsMergableList(Intended, a.statements, b.statements)
    ensures ElifsFitList(a.statements, b.statements)
    ensures Sound([Merged(w, a, b)] + rest) && AllOutputs([Merged(w, a, b)] + rest) <= AllOutputs([a] + ([b] + rest))
  {
    Front(a, [b] + rest, env);
    Front(b, rest, env);
    JoinedMeaning(w, a.statements, b.statements, env);
    PartKeeps(w, b.statements);
    Front(Merged(w, a, b), rest, env);
  }

  lemma MergedWrites(w: Version, a: Proc, b: Proc, l: seq<Proc>, env: Env)
    requires Pair(a.statements, b.statements)
    ensures ElifsFitList(a.statements, b.statements)
    ensures AllWrites([Merged(w, a, b)] + l, env) == AllWrites([a] + ([Stripped(w, b, true)] + l), env)
    ensures AllOutputs([Merged(w, a, b)] + l) == AllOutputs([a] + ([Stripped(w, b, true)] + l))
  {
    JoinedMeaning(w, a.statements, b.statements, env);
    Front(Merged(w, a, b), l, env);
    Front(a, [Stripped(w, b, true)] + l, env);
    Front(Stripped(w, b, true), l, env);
    MovePast(ExecList(a.statements, env), ExecList(Part(w, b.statements), env), AllWrites(l, env));
  }

  /** The same processes, in another order, write the same and drive the same. */
  ghost predicate SameEffect(a: seq<Proc>, b: seq<Proc>, env: Env) {
    AllWrites(a, env) == AllWrites(b, env) && AllOutputs(a) == AllOutputs(b)
  }

  lemma SweepSound(w: Version, a: Proc, later: seq<Proc>)
    requires Sound([a] + later)
    ensures Sweep(Intended, w, a, later).Done?
    ensures var s := Sweep(Intended, w, a, later).value;
      Sound([s.proc] + s.rest) && AllOutputs([s.proc] + s.rest) <= AllOutputs([a] + later)
    decreases |later|
  {
    var env: Env := _ => 0;
    if later != [] {
      var b, l := later[0], later[1..];
      assert later == [b] + l;
      if Compatible(Intended, a, b) {
        MergedSound(w, a, b, l, env);
        SweepSound(w, Merged(w, a, b), l);
      } else {
        Swap(a, b, l, env);
        Front(b, [a] + l, env);
        SweepSound(w, a, l);
        var s := Sweep(Intended, w, a, l).value;
        Front(b, [s.proc] + s.rest, env);
        Swap(b, s.proc, s.rest, env);
      }
    }
  }

  /** A sweep moves the writes of the processes taken into the first one, cut down, and leaves the others. */
  lemma {:induction false} SweepWrites(w: Version, a: Proc, later: seq<Proc>, away: seq<bool>, env: Env)
    requires Sound([a] + later) && Sweep(Intended, w, a, later).Done?
    requires |away| == |Sweep(Intended, w, a, later).value.rest|
    ensures var s := Sweep(Intended, w, a, later).value;
      && Left(s.taken) == |away|
      && SameEffect([s.proc] + Strip(w, s.rest, away), [a] + Strip(w, later, Mark(s.taken, away)), env)
    decreases |later|
  {
    SweepSizes(Intended, w, a, later);
    if later != [] {
      var b, l := later[0], later[1..];
      assert later == [b] + l;
      var s := Sweep(Intended, w, a, later).value;
      Front(a, later, env);
      Front(b, l, env);
      StripCons(w, b, l, Mark(s.taken, away));
      if Compatible(Intended, a, b) {
        MergedSound(w, a, b, l, env);
        SweepWrites(w, Merged(w, a, b), l, away, env);
        var s' := Sweep(Intended, w, Merged(w, a, b), l).value;
        assert s.taken[1..] == s'.taken && Mark(s.taken, away)[1..] == Mark(s'.taken, away);
        MergedWrites(w, a, b, Strip(w, l, Mark(s'.taken, away)), env);
      } else {
        Front(a, l, env);
        PassedBy(w, a, b, l, s, away, env);
      }
    }
  }

  /** The step over a process that is not taken. */
  lemma {:induction false} PassedBy(w: Version, a: Proc, b: Proc, l: seq<Proc>, s: Swept, away: seq<bool>, env: Env)
    requires Sound([a] + ([b] + l)) && Sound([a] + l) && !Compatible(Intended, a, b)
    requires Sweep(Intended, w, a, [b] + l) == Done(s) && |away| == |s.rest|
    requires Left(s.taken) == |away|
    ensures SameEffect([s.proc] + Strip(w, s.rest, away), [a] + Strip(w, [b] + l, Mark(s.taken, away)), env)
    decreases |l| + 1, 0
  {
    assert ([b] + l)[1..] == l;
    var s' := Sweep(Intended, w, a, l).value;
    assert s.rest == [b] + s'.rest && s.taken == [false] + s'.taken && s.proc == s'.proc;
    assert s.taken[1..] == s'.taken;
    SweepWrites(w, a, l, away[1..], env);
    SweepSound(w, a, l);
    var b' := Stripped(w, b, away[0]);
    var rest, strip := Strip(w, s'.rest, away[1..]), Strip(w, l, Mark(s'.taken, away[1..]));
    StripCons(w, b, s'.rest, away);
    StripCons(w, b, l, Mark(s.taken, away));
    assert Mark(s.taken, away) == [away[0]] + Mark(s'.taken, away[1..]);
    StrippedBetween(w, s'.proc, b, s'.rest, away, a, l, env);
    Swap(s'.proc, b', rest, env);
    Front(b', [s'.proc] + rest, env);
    StrippedFront(w, a, b, l, [away[0]] + Mark(s'.taken, away[1..]), env);
    Swap(a, b', strip, env);
    Front(b', [a] + strip, env);
  }

  /** Cutting down what follows keeps a list sound. */
  lemma StrippedFront(w: Version, a: Proc, b: Proc, l: seq<Proc>, away: seq<bool>, env: Env)
    requires Sound([a] + ([b] + l)) && |away| == |l| + 1
    ensures Sound([a] + ([Stripped(w, b, away[0])] + Strip(w, l, away[1..])))
  {
    Front(a, [b] + l, env);
    Front(b, l, env);
    StripKeeps(w, [b] + l, away);
    StripCons(w, b, l, away);
    Front(a, Strip(w, [b] + l, away), env);
  }

  lemma StrippedBetween(w: Version, p: Proc, b: Proc, rest: seq<Proc>, away: seq<bool>, a: Proc, l: seq<Proc>, env: Env)
    requires Sound([a] + ([b] + l)) && Sound([p] + rest) && AllOutputs([p] + rest) <= AllOutputs([a] + l)
    requires |away| == |rest| + 1
    ensures Sound([p] + ([Stripped(w, b, away[0])] + Strip(w, rest, away[1..])))
  {
    Swap(a, b, l, env);
    Front(b, [a] + l, env);
    Front(b, [p] + rest, env);
    Swap(b, p, rest, env);
    StrippedFront(w, p, b, rest, away, env);
  }

  /**
    The survivors of a group write what the processes wrote, those taken away cut down to
    what a merge carries over of them, and drive the nets of these.
  */
  lemma {:induction false} GroupWrites(w: Version, procs: seq<Proc>, env: Env)
    requires Sound(procs)
    ensures ReduceGroup(Intended, w, procs).Done?
    ensures var r := ReduceGroup(Intended, w, procs).value;
      && Sound(r) && AllOutputs(r) <= AllOutputs(procs)
      && SameEffect(r, Strip(w, procs, TakenAway(Intended, w, procs)), env)
    decreases |procs|
  {
    if procs != [] {
      var a, later := procs[0], procs[1..];
      assert [a] + later == procs;
      SweepSound(w, a, later);
      var s := Sweep(Intended, w, a, later).value;
      Front(s.proc, s.rest, env);
      GroupWrites(w, s.rest, env);
      AwayUnfolds(Intended, w, procs);
      var away := TakenAway(Intended, w, s.rest);
      SweepWrites(w, a, later, away, env);
      StripCons(w, a, later, TakenAway(Intended, w, procs));
      assert TakenAway(Intended, w, procs)[1..] == Mark(s.taken, away);
      Front(s.proc, ReduceGroup(Intended, w, s.rest).value, env);
      Front(s.proc, Strip(w, s.rest, away), env);
    }
  }

  // ---------- The group as intended ----------

  lemma {:induction false} StripNothing(procs: seq<Proc>, away: seq<bool>)
    requires |procs| == |away|
    ensures Strip(Intended, procs, away) == procs
  {
    if procs != [] {
      StripNothing(procs[1..], away[1..]);
    }
  }

  /** With the merged list kept, a group writes and drives exactly what it did before, in every environment. */
  lemma IntendedKeepsWrites(procs: seq<Proc>, env: Env)
    requires Sound(procs)
    ensures ReduceGroup(Intended, Intended, procs).Done?
    ensures var r := ReduceGroup(Intended, Intended, procs).value;
      Sound(r) && AllOutputs(r) == AllOutputs(procs) && AllWrites(r, env) == AllWrites(procs, env)
  {
    GroupWrites(Intended, procs, env);
    StripNothing(procs, TakenAway(Intended, Intended, procs));
  }

  // ---------- The group as written ----------

  /** Reducing the group as written leaves its writes as they were in every environment. */
  ghost predicate GroupKeepsWrites(procs: seq<Proc>)
    requires ReduceGroup(Intended, AsWritten, procs).Done?
  {
    forall env: Env :: AllWrites(ReduceGroup(Intended, AsWritten, procs).value, env) == AllWrites(procs, env)
  }

  /** No process that is marked has an assignment outside an if. */
  predicate AwayBranching(procs: seq<Proc>, away: seq<bool>)
    requires |procs| == |away|
  {
    forall i :: 0 <= i < |procs| && away[i] ==> NoAssign(procs[i].statements)
  }

  predicate EmptyAtZeroAll(procs: seq<Proc>) {
    forall p :: p in procs ==> EmptyAtZero(p.statements)
  }

  lemma {:induction false} StripSuffices(procs: seq<Proc>, away: seq<bool>, env: Env)
    requires |procs| == |away| && AwayBranching(procs, away) && EmptyAtZeroAll(procs)
    ensures AllWrites(Strip(AsWritten, procs, away), env) == AllWrites(procs, env)
  {
    if procs != [] {
      assert procs[0] in procs;
      if away[0] {
        assert NoAssign(procs[0].statements);
        BranchingSuffices(procs[0].statements, env);
      }
      forall i | 0 <= i < |procs| - 1 && away[1..][i] ensures NoAssign(procs[1..][i].statements) {
        assert away[i + 1];
      }
      StripSuffices(procs[1..], away[1..], env);
      StripCons(AsWritten, procs[0], procs[1..], away);
      assert procs == [procs[0]] + procs[1..];
      Front(Stripped(AsWritten, procs[0], away[0]), Strip(AsWritten, procs[1..], away[1..]), env);
    }
  }

  /** The net of an assignment at the top of a marked process is gone after cutting down. */
  lemma {:induction false} StripLoses(procs: seq<Proc>, away: seq<bool>, i: nat, k: nat, env: Env)
    requires |procs| == |away| && Sound(procs) && i < |procs| && away[i]
    requires k < |procs[i].statements| && procs[i].statements[k].Assign?
    ensures procs[i].statements[k].dst in AllWrites(procs, env)
    ensures procs[i].statements[k].dst !in AllOutputs(Strip(AsWritten, procs, away))
    ensures procs[i].statements[k].dst in AllOutputs(procs)
  {
    StripCons(AsWritten, procs[0], procs[1..], away);
    assert procs == [procs[0]] + procs[1..];
    Front(Stripped(AsWritten, procs[0], away[0]), Strip(AsWritten, procs[1..], away[1..]), env);
    StripKeeps(AsWritten, procs[1..], away[1..]);
    PartKeeps(AsWritten, procs[0].statements);
    if i == 0 {
      SimpleOutput(procs[0].statements, k);
      SimpleWritten(procs[0].statements, k, env);
    } else {
      StripLoses(procs[1..], away[1..], i - 1, k, env);
    }
  }

  lemma GroupKeepsWhenBranching(procs: seq<Proc>)
    requires Sound(procs) && EmptyAtZeroAll(procs) && ReduceGroup(Intended, AsWritten, procs).Done?
    requires AwayBranching(procs, TakenAway(Intended, AsWritten, procs))
    ensures GroupKeepsWrites(procs)
  {
    var r, away := ReduceGroup(Intended, AsWritten, procs).value, TakenAway(Intended, AsWritten, procs);
    forall env: Env ensures AllWrites(r, env) == AllWrites(procs, env) {
      GroupWrites(AsWritten, procs, env);
      StripSuffices(procs, away, env);
    }
  }

  lemma GroupLosesOtherwise(procs: seq<Proc>, i: nat, k: nat)
    requires Sound(procs) && ReduceGroup(Intended, AsWritten, procs).Done?
    requires i < |procs| && TakenAway(Intended, AsWritten, procs)[i]
    requires k < |procs[i].statements| && procs[i].statements[k].Assign?
    ensures !GroupKeepsWrites(procs)
  {
    var env: Env := _ => 0;
    var r := ReduceGroup(Intended, AsWritten, procs).value;
    GroupWrites(AsWritten, procs, env);
    StripLoses(procs, TakenAway(Intended, AsWritten, procs), i, k, env);
    AllWritesAreOutputs(r, env);
    assert procs[i].statements[k].dst in AllWrites(procs, env) && procs[i].statements[k].dst !in AllWrites(r, env);
  }

  /**
    As written, a group keeps its writes in every environment exactly when no process that is
    taken away has an assignment outside an if.
  */
  lemma GroupKeepsExactly(procs: seq<Proc>)
    requires Sound(procs) && EmptyAtZeroAll(procs)
    ensures ReduceGroup(Intended, AsWritten, procs).Done?
    ensures GroupKeepsWrites(procs) <==> AwayBranching(procs, TakenAway(Intended, AsWritten, procs))
  {
    GroupWrites(AsWritten, procs, _ => 0);
    var away := TakenAway(Intended, AsWritten, procs);
    if AwayBranching(procs, away) {
      GroupKeepsWhenBranching(procs);
    } else {
      var i :| 0 <= i < |procs| && away[i] && !NoAssign(procs[i].statements);
      var k := SomeAssign(procs[i].statements);
      GroupLosesOtherwise(procs, i, k);
    }
  }

  // ---------- Success ----------

  predicate ElseGivenAll(procs: seq<Proc>) {
    forall p :: p in procs ==> ElseGivenList(p.statements)
  }

  lemma {:induction false} SweepSucceeds(w: Version, a: Proc, later: seq<Proc>)
    requires ElseGivenList(a.statements) && ElseGivenAll(later)
    ensures Sweep(Intended, w, a, later).Done? && ElseGivenAll(Sweep(Intended, w, a, later).value.rest)
    decreases |later|
  {
    if later != [] {
      var b := later[0];
      assert b in later;
      if Compatible(Intended, a, b) {
        MergeListsElseGiven(a.statements, b.statements);
        TakenInElseGiven(a.statements, b.statements);
        SweepSucceeds(w, Merged(w, a, b), later[1..]);
      } else {
        SweepSucceeds(w, a, later[1..]);
      }
    }
  }

  /** With the intended check every group of statements with proper else branches is reduced. */
  lemma {:induction false} GroupSucceeds(w: Version, procs: seq<Proc>)
    requires ElseGivenAll(procs)
    ensures ReduceGroup(Intended, w, procs).Done?
    decreases |procs|
  {
    if procs != [] {
      assert procs[0] in procs;
      SweepSucceeds(w, procs[0], procs[1..]);
      GroupSucceeds(w, Sweep(Intended, w, procs[0], procs[1..]).value.rest);
    }
  }
}
