/**
  Removing what no output depends on (remove_useless.cpp): walk the drivers of the outputs,
  then remove every node that was not visited.
*/
module RemoveUseless {
  import opened Netlists
  import opened BoundaryCut
  import opened RemoveByMask
  import Traverse
  import TraverseRuns
  import TraverseQuery

  // ---------- What an output depends on ----------

  ghost predicate DriverPath(d: Design, p: seq<Id>) {
    p != [] && forall k :: 0 <= k < |p| - 1 ==> Mentions(d.back, p[k], p[k + 1])
  }

  ghost predicate PathFrom(d: Design, outs: set<Id>, p: seq<Id>, n: Id) {
    DriverPath(d, p) && p[0] in outs && p[0] in d.nets && p[|p| - 1] == n
  }

  /** Some output net depends on `n` over a chain of drivers. */
  ghost predicate Useful(d: Design, outs: set<Id>, n: Id) {
    exists p :: PathFrom(d, outs, p, n)
  }

  ghost function UsefulSet(d: Design, outs: set<Id>): set<Id> {
    set n | n in d.nodes && Useful(d, outs, n)
  }

  lemma PathExtends(d: Design, outs: set<Id>, p: seq<Id>, n: Id, m: Id)
    requires PathFrom(d, outs, p, n) && Mentions(d.back, n, m)
    ensures PathFrom(d, outs, p + [m], m)
  {
  }

  lemma UsefulClosed(d: Design, outs: set<Id>)
    requires Valid(d)
    ensures BackwardClosed(d, UsefulSet(d, outs))
  {
    forall n, m | n in NodeSet(d) && n in UsefulSet(d, outs) && Mentions(d.back, n, m)
      ensures m in UsefulSet(d, outs)
    {
      var p :| PathFrom(d, outs, p, n);
      PathExtends(d, outs, p, n, m);
      assert m in NodeSet(d);
    }
  }

  /** Every node on the way to a useful one is useful. */
  lemma {:induction false} PrefixUseful(d: Design, outs: set<Id>, p: seq<Id>, k: nat)
    requires Valid(d) && DriverPath(d, p) && p[0] in outs && p[0] in d.nets && k < |p|
    ensures p[k] in UsefulSet(d, outs)
  {
    if k == 0 {
      assert PathFrom(d, outs, [p[0]], p[0]);
    } else {
      PrefixUseful(d, outs, p, k - 1);
      assert Mentions(d.back, p[k - 1], p[k - 1 + 1]);
      UsefulClosed(d, outs);
      assert p[k - 1] in NodeSet(d);
    }
  }

  /** After the removal every node that is left is still useful. */
  lemma UsefulAgain(d: Design, outs: set<Id>, n: Id)
    requires Valid(d) && n in Removed(d, UsefulSet(d, outs)).nodes
    ensures Useful(Removed(d, UsefulSet(d, outs)), outs, n)
  {
    var keep := UsefulSet(d, outs);
    var r := Removed(d, keep);
    var p :| PathFrom(d, outs, p, n);
    forall k | 0 <= k < |p| ensures p[k] in keep {
      PrefixUseful(d, outs, p, k);
    }
    forall k | 0 <= k < |p| - 1 ensures Mentions(r.back, p[k], p[k + 1]) {
      assert Mentions(d.back, p[k], p[k + 1]);
      RemovedMentions(d, keep, p[k], p[k + 1]);
    }
    assert PathFrom(r, outs, p, n);
  }

  // ---------- The same over indexes ----------

  function Indexes(d: Design, s: seq<Id>): (r: seq<nat>)
    requires forall x :: x in s ==> x in d.index
    ensures |r| == |s| && forall i :: 0 <= i < |s| ==> r[i] == d.index[s[i]]
  {
    seq(|s|, i requires 0 <= i < |s| => assert s[i] in s; d.index[s[i]])
  }

  lemma DriversIndexed(d: Design, n: Id)
    requires Valid(d) && n in d.nodes
    ensures forall x :: x in d.back[n] ==>
      x in NodeSet(d) && x in d.index && d.index[x] < |d.nodes| && d.nodes[d.index[x]] == x
  {
    forall x | x in d.back[n] ensures x in NodeSet(d) {
      assert n in NodeSet(d) && Mentions(d.back, n, x);
    }
    forall x | x in d.nodes ensures x in d.index && d.index[x] < |d.nodes| && d.nodes[d.index[x]] == x {
      var k :| 0 <= k < |d.nodes| && d.nodes[k] == x;
      assert d.index[d.nodes[k]] == k;
    }
  }

  function DriversAt(d: Design, i: nat): (r: seq<nat>)
    requires Valid(d) && i < |d.nodes|
    ensures forall k :: 0 <= k < |r| ==> r[k] < |d.nodes|
  {
    DriversIndexed(d, d.nodes[i]);
    var r := Indexes(d, d.back[d.nodes[i]]);
    assert forall k :: 0 <= k < |r| ==> d.back[d.nodes[i]][k] in d.back[d.nodes[i]];
    r
  }

  lemma DriversAtMeans(d: Design, i: nat, k: nat)
    requires Valid(d) && i < |d.nodes|
    ensures k in DriversAt(d, i) <==> k < |d.nodes| && Mentions(d.back, d.nodes[i], d.nodes[k])
  {
    DriversIndexed(d, d.nodes[i]);
    var b := d.back[d.nodes[i]];
    var r := DriversAt(d, i);
    if k in r {
      var j :| 0 <= j < |r| && r[j] == k;
      assert b[j] in b;
    }
    if k < |d.nodes| && d.nodes[k] in b {
      var j :| 0 <= j < |b| && b[j] == d.nodes[k];
      assert d.index[d.nodes[k]] == k;
      assert r[j] == k;
    }
  }

  function BackGraph(d: Design): (g: Traverse.Graph)
    requires Valid(d)
    ensures |g| == |d.nodes| && forall i :: 0 <= i < |g| ==> g[i] == DriversAt(d, i)
  {
    seq(|d.nodes|, i requires 0 <= i < |d.nodes| => DriversAt(d, i))
  }

  ghost predicate OutputAt(d: Design, outs: set<Id>, i: nat) {
    i < |d.nodes| && d.nodes[i] in outs && d.nodes[i] in d.nets
  }

  lemma PathByIndex(d: Design, p: seq<nat>)
    requires Valid(d) && TraverseRuns.Path(BackGraph(d), p)
    ensures DriverPath(d, NodesAt(d, p))
  {
    var g := BackGraph(d);
    var q := NodesAt(d, p);
    forall k | 0 <= k < |p| - 1 ensures Mentions(d.back, q[k], q[k + 1]) {
      assert p[k + 1] in g[p[k]];
      DriversAtMeans(d, p[k], p[k + 1]);
    }
  }

  ghost function NodesAt(d: Design, p: seq<nat>): (q: seq<Id>)
    requires forall k :: 0 <= k < |p| ==> p[k] < |d.nodes|
    ensures |q| == |p| && forall k :: 0 <= k < |p| ==> q[k] == d.nodes[p[k]]
  {
    seq(|p|, k requires 0 <= k < |p| => d.nodes[p[k]])
  }

  lemma {:induction false} PathToIndex(d: Design, outs: set<Id>, starts: seq<nat>, p: seq<Id>)
    requires Valid(d) && DriverPath(d, p) && p[0] in outs && p[0] in d.nets
    requires forall i :: i in starts <==> OutputAt(d, outs, i)
    ensures p[|p| - 1] in d.index && TraverseRuns.Reachable(BackGraph(d), starts, d.index[p[|p| - 1]])
  {
    var n := p[|p| - 1];
    PrefixUseful(d, outs, p, |p| - 1);
    IndexOfNode(d, n);
    if |p| == 1 {
      TraverseRuns.ReachStart(BackGraph(d), starts, d.index[n]);
    } else {
      var m := p[|p| - 2];
      PathToIndex(d, outs, starts, p[..|p| - 1]);
      PrefixUseful(d, outs, p, |p| - 2);
      IndexOfNode(d, m);
      assert Mentions(d.back, p[|p| - 2], p[|p| - 2 + 1]);
      DriversAtMeans(d, d.index[m], d.index[n]);
      TraverseRuns.ReachNext(BackGraph(d), starts, d.index[m], d.index[n]);
    }
  }

  lemma IndexOfNode(d: Design, x: Id)
    requires Valid(d) && x in d.nodes
    ensures x in d.index && d.index[x] < |d.nodes| && d.nodes[d.index[x]] == x
  {
    var k :| 0 <= k < |d.nodes| && d.nodes[k] == x;
    assert d.index[d.nodes[k]] == k;
  }

  /** Reachable in the traversed graph is useful in the netlist. */
  lemma ReachableIsUseful(d: Design, outs: set<Id>, starts: seq<nat>, i: nat)
    requires Valid(d) && i < |d.nodes|
    requires forall k :: k in starts <==> OutputAt(d, outs, k)
    ensures TraverseRuns.Reachable(BackGraph(d), starts, i) <==> Useful(d, outs, d.nodes[i])
  {
    if TraverseRuns.Reachable(BackGraph(d), starts, i) {
      var p :| TraverseRuns.PathTo(BackGraph(d), starts, i, p);
      PathByIndex(d, p);
      assert PathFrom(d, outs, NodesAt(d, p), d.nodes[i]);
    }
    if Useful(d, outs, d.nodes[i]) {
      var p :| PathFrom(d, outs, p, d.nodes[i]);
      PathToIndex(d, outs, starts, p);
    }
  }

  // ---------- Why it may stop ----------

  /** A kept operation also drives a net that is deleted. */
  ghost predicate Spills(d: Design, keep: set<Id>) {
    exists x, n :: x in NodeSet(d) && x in keep && x !in d.isNet && n in NodeSet(d) && n !in keep
        && Mentions(d.back, n, x)
  }

  lemma SpillsMeansNotOnlyNets(d: Design, mask: seq<bool>)
    requires FitsMask(d, mask)
    ensures Spills(d, KeptSet(d, mask)) <==> !CutsNetsOnly(d, mask)
  {
    var keep := KeptSet(d, mask);
    if Spills(d, keep) {
      var x, n :| x in NodeSet(d) && x in keep && x !in d.isNet && n in NodeSet(d) && n !in keep
          && Mentions(d.back, n, x);
      KeptByIndex(d, mask, n);
      assert Bounds(d, mask, d.index[n], x);
      assert x in BoundarySet(d, mask);
    }
    if !CutsNetsOnly(d, mask) {
      var x :| x in BoundarySet(d, mask) && x !in d.isNet;
      var k: nat :| Bounds(d, mask, k, x);
      KeptByIndex(d, mask, d.nodes[k]);
      assert d.index[d.nodes[k]] == k;
      assert d.nodes[k] in NodeSet(d) && x in NodeSet(d);
    }
  }

  /** Operations that drive one net only, as calls and assignments do, never stop the removal. */
  lemma SingleResultsNeverStop(d: Design, outs: set<Id>)
    requires Valid(d)
    requires forall x, n, m ::
      x in NodeSet(d) && x !in d.isNet && Mentions(d.fwd, x, n) && Mentions(d.fwd, x, m) ==> n == m
    ensures !Spills(d, UsefulSet(d, outs))
  {
    var keep := UsefulSet(d, outs);
    forall x, n | x in NodeSet(d) && x in keep && x !in d.isNet && n in NodeSet(d) && Mentions(d.back, n, x)
      ensures n in keep
    {
      var p :| PathFrom(d, outs, p, x);
      assert |p| > 1;
      var m := p[|p| - 2];
      PrefixUseful(d, outs, p, |p| - 2);
      assert Mentions(d.back, p[|p| - 2], p[|p| - 2 + 1]);
      assert m in NodeSet(d) && Mentions(d.fwd, x, m) && Mentions(d.fwd, x, n);
    }
  }

  // ---------- Behaviour ----------

  type Value = int

  /** What a node makes of its input, its old value and its operands. */
  type Rule = (Id, Value, Value, seq<Value>) -> Value

  function Operands(d: Design, s: map<Id, Value>, n: Id): seq<Value>
    requires n in d.back && forall m :: m in d.back[n] ==> m in s
  {
    seq(|d.back[n]|, i requires 0 <= i < |d.back[n]| => assert d.back[n][i] in d.back[n]; s[d.back[n][i]])
  }

  ghost predicate Covers(d: Design, s: map<Id, Value>) {
    forall n :: n in NodeSet(d) ==> n in s
  }

  /**
    One step: each node takes a value from its own rule, its input, its old value and the old values
    of its drivers.
  */
  ghost function Next(d: Design, rule: Rule, input: Id -> Value, s: map<Id, Value>): (t: map<Id, Value>)
    requires Valid(d) && Covers(d, s)
    ensures Covers(d, t)
  {
    DriversKnown(d, s);
    map n | n in d.nodes :: rule(n, input(n), s[n], Operands(d, s, n))
  }

  lemma DriversKnown(d: Design, s: map<Id, Value>)
    requires Valid(d) && Covers(d, s)
    ensures forall n :: n in d.nodes ==> n in s && n in d.back && forall m :: m in d.back[n] ==> m in s
  {
    forall n, m | n in d.nodes && n in d.back && m in d.back[n] ensures m in s {
      assert n in NodeSet(d) && Mentions(d.back, n, m);
    }
    forall n | n in d.nodes ensures n in s {
      assert n in NodeSet(d);
    }
  }

  ghost function Trace(d: Design, rule: Rule, inputs: seq<Id -> Value>, s: map<Id, Value>): (t: map<Id, Value>)
    requires Valid(d) && Covers(d, s)
    ensures Covers(d, t)
    decreases |inputs|
  {
    if inputs == [] then s else Trace(d, rule, inputs[1..], Next(d, rule, inputs[0], s))
  }

  ghost predicate AgreeOn(d: Design, keep: set<Id>, s: map<Id, Value>, t: map<Id, Value>) {
    forall n :: n in NodeSet(d) && n in keep ==> n in s && n in t && s[n] == t[n]
  }

  lemma OperandsAgree(d: Design, keep: set<Id>, s: map<Id, Value>, t: map<Id, Value>, n: Id)
    requires Valid(d) && BackwardClosed(d, keep) && Covers(d, s) && AgreeOn(d, keep, s, t) && n in NodeSet(d)
        && n in keep
    ensures (forall m :: m in d.back[n] ==> m in s && m in t) && Operands(d, s, n) == Operands(d, t, n)
  {
    forall m | m in d.back[n] ensures m in s && m in t && s[m] == t[m] {
      assert Mentions(d.back, n, m);
      assert m in NodeSet(d);
    }
    forall i | 0 <= i < |d.back[n]| ensures Operands(d, s, n)[i] == Operands(d, t, n)[i] {
      assert d.back[n][i] in d.back[n];
    }
  }

  lemma NextAt(d: Design, rule: Rule, input: Id -> Value, s: map<Id, Value>, n: Id)
    requires Valid(d) && Covers(d, s) && n in NodeSet(d)
    ensures n in s && (forall m :: m in d.back[n] ==> m in s)
    ensures n in Next(d, rule, input, s) && Next(d, rule, input, s)[n] == rule(n, input(n), s[n], Operands(d, s, n))
  {
    DriversKnown(d, s);
  }

  lemma SameOperands(d: Design, e: Design, t: map<Id, Value>, n: Id)
    requires n in d.back && n in e.back && d.back[n] == e.back[n] && forall m :: m in d.back[n] ==> m in t
    ensures Operands(d, t, n) == Operands(e, t, n)
  {
  }

  lemma StepAgrees(d: Design, keep: set<Id>, rule: Rule, input: Id -> Value,
                   s: map<Id, Value>, t: map<Id, Value>)
    requires Valid(d) && BackwardClosed(d, keep) && Covers(d, s) && AgreeOn(d, keep, s, t)
    requires Valid(Removed(d, keep)) && Covers(Removed(d, keep), t)
    ensures AgreeOn(d, keep, Next(d, rule, input, s), Next(Removed(d, keep), rule, input, t))
  {
    var r := Removed(d, keep);
    forall n | n in NodeSet(d) && n in keep
      ensures n in Next(d, rule, input, s) && n in Next(r, rule, input, t)
      ensures Next(d, rule, input, s)[n] == Next(r, rule, input, t)[n]
    {
      assert n in NodeSet(r) && r.back[n] == d.back[n];
      NextAt(d, rule, input, s, n);
      NextAt(r, rule, input, t, n);
      OperandsAgree(d, keep, s, t, n);
      SameOperands(d, r, t, n);
    }
  }

  /**
    Whatever the nodes compute, whatever the inputs and for any number of steps, the kept
    nodes have the values they had before the removal of the rest.
  */
  lemma {:induction false} BehaviourKept(d: Design, keep: set<Id>, rule: Rule,
                                         inputs: seq<Id -> Value>, s: map<Id, Value>, t: map<Id, Value>)
    requires Valid(d) && BackwardClosed(d, keep) && Covers(d, s) && AgreeOn(d, keep, s, t)
    requires Valid(Removed(d, keep)) && Covers(Removed(d, keep), t)
    ensures AgreeOn(d, keep, Trace(d, rule, inputs, s), Trace(Removed(d, keep), rule, inputs, t))
    decreases |inputs|
  {
    if inputs != [] {
      StepAgrees(d, keep, rule, inputs[0], s, t);
      BehaviourKept(d, keep, rule, inputs[1..], Next(d, rule, inputs[0], s),
          Next(Removed(d, keep), rule, inputs[0], t));
    }
  }

  /** In particular every output keeps its value. */
  lemma OutputsKept(d: Design, outs: set<Id>, rule: Rule,
                    inputs: seq<Id -> Value>, s: map<Id, Value>)
    requires Valid(d) && Covers(d, s)
    ensures var r := Removed(d, UsefulSet(d, outs));
      && Valid(r) && Covers(r, s)
      && forall n :: n in d.nets && n in outs ==>
           n in r.nets && n in s && Trace(d, rule, inputs, s)[n] == Trace(r, rule, inputs, s)[n]
  {
    var keep := UsefulSet(d, outs);
    var r := Removed(d, keep);
    UsefulClosed(d, outs);
    RemovedValid(d, keep);
    assert Covers(r, s) by {
      forall n | n in NodeSet(r) ensures n in s {
        assert n in NodeSet(d);
      }
    }
    BehaviourKept(d, keep, rule, inputs, s, s);
    forall n | n in d.nets && n in outs ensures n in keep && n in NodeSet(d) {
      OutputUseful(d, outs, n);
    }
  }

  // ---------- Behaviour when operators settle within a step ----------

  ghost predicate OperandsKnown(d: Design, s: map<Id, Value>, n: Id) {
    n in s && n in d.back && forall m :: m in d.back[n] ==> m in s
  }

  /** In the new values `w` a node agrees with its rule: over old operands if it is delayed, else over new ones. */
  ghost predicate SettledAt(d: Design, delayed: set<Id>, rule: Rule, input: Id -> Value, s: map<Id, Value>,
                            w: map<Id, Value>, n: Id)
    requires OperandsKnown(d, s, n) && OperandsKnown(d, w, n)
  {
    w[n] == rule(n, input(n), s[n], Operands(d, if n in delayed then s else w, n))
  }

  /** One step of a netlist in which only the nodes in `delayed` look at old values of their drivers. */
  ghost predicate Settles(d: Design, delayed: set<Id>, rule: Rule, input: Id -> Value, s: map<Id, Value>,
                          w: map<Id, Value>)
  {
    forall n :: n in NodeSet(d) ==>
      OperandsKnown(d, s, n) && OperandsKnown(d, w, n) && SettledAt(d, delayed, rule, input, s, w, n)
  }

  /** Values step by step, each settled from the one before. */
  ghost predicate SettledRun(d: Design, delayed: set<Id>, rule: Rule, inputs: seq<Id -> Value>,
                             ws: seq<map<Id, Value>>)
  {
    |ws| == |inputs| + 1 && forall i :: 0 <= i < |inputs| ==> Settles(d, delayed, rule, inputs[i], ws[i], ws[i + 1])
  }

  /** No loop of nodes that are not delayed: every such node is above its drivers. */
  ghost predicate NoLoop(d: Design, delayed: set<Id>, level: Id -> nat) {
    forall n, m :: n in NodeSet(d) && n !in delayed && Mentions(d.back, n, m) ==> level(m) < level(n)
  }

  /** What settles the netlist settles what is kept of it, loops or not. */
  lemma SettledKept(d: Design, keep: set<Id>, delayed: set<Id>, rule: Rule, input: Id -> Value,
                    s: map<Id, Value>, w: map<Id, Value>, t: map<Id, Value>)
    requires Valid(d) && BackwardClosed(d, keep) && Covers(d, s) && AgreeOn(d, keep, s, t)
    requires Settles(d, delayed, rule, input, s, w)
    ensures Settles(Removed(d, keep), delayed, rule, input, t, w)
  {
    var r := Removed(d, keep);
    RemovedValid(d, keep);
    forall n | n in NodeSet(r)
      ensures OperandsKnown(r, t, n) && OperandsKnown(r, w, n) && SettledAt(r, delayed, rule, input, t, w, n)
    {
      assert n in NodeSet(d) && n in keep && r.back[n] == d.back[n];
      OperandsAgree(d, keep, s, t, n);
      SameOperands(d, r, t, n);
      SameOperands(d, r, w, n);
      assert SettledAt(d, delayed, rule, input, s, w, n);
    }
  }

  lemma RemovedBack(d: Design, keep: set<Id>, n: Id)
    requires Valid(d) && n in NodeSet(d) && n in keep
    ensures var r := Removed(d, keep); n in NodeSet(r) && n in r.back && n in d.back && r.back[n] == d.back[n]
  {
  }

  lemma SameNewOperands(d: Design, e: Design, w: map<Id, Value>, v: map<Id, Value>, n: Id)
    requires n in d.back && n in e.back && d.back[n] == e.back[n]
    requires forall m :: m in d.back[n] ==> m in w && m in v && w[m] == v[m]
    ensures Operands(d, w, n) == Operands(e, v, n)
  {
    forall i | 0 <= i < |d.back[n]| ensures Operands(d, w, n)[i] == Operands(e, v, n)[i] {
      assert d.back[n][i] in d.back[n];
    }
  }

  lemma DriversKept(d: Design, keep: set<Id>, n: Id, m: Id)
    requires Valid(d) && BackwardClosed(d, keep) && n in NodeSet(d) && n in keep && m in d.back[n]
    ensures Mentions(d.back, n, m) && m in NodeSet(d) && m in keep
  {
    assert Mentions(d.back, n, m);
  }

  /**
    Two settled steps from values that agree on the kept nodes agree on them, when no loop goes past
    the delayed nodes.
  */
  lemma {:induction false} SettledAgree(d: Design, keep: set<Id>, r: Design, delayed: set<Id>, level: Id -> nat,
                                        rule: Rule, input: Id -> Value, s: map<Id, Value>, w: map<Id, Value>,
                                        t: map<Id, Value>, v: map<Id, Value>, n: Id)
    requires Valid(d) && BackwardClosed(d, keep) && NoLoop(d, delayed, level) && r == Removed(d, keep)
    requires Covers(d, s) && AgreeOn(d, keep, s, t)
    requires Settles(d, delayed, rule, input, s, w) && Settles(r, delayed, rule, input, t, v)
    requires n in NodeSet(d) && n in keep
    ensures n in w && n in v && w[n] == v[n]
    decreases level(n)
  {
    RemovedBack(d, keep, n);
    assert SettledAt(d, delayed, rule, input, s, w, n) && SettledAt(r, delayed, rule, input, t, v, n);
    if n in delayed {
      OperandsAgree(d, keep, s, t, n);
      SameOperands(d, r, t, n);
    } else {
      forall m | m in d.back[n] ensures m in w && m in v && w[m] == v[m] {
        DriversKept(d, keep, n, m);
        SettledAgree(d, keep, r, delayed, level, rule, input, s, w, t, v, m);
      }
      SameNewOperands(d, r, w, v, n);
    }
    assert s[n] == t[n];
  }

  /** Settled values cover every node. */
  lemma SettlesCovers(d: Design, delayed: set<Id>, rule: Rule, input: Id -> Value, s: map<Id, Value>, w: map<Id, Value>)
    requires Settles(d, delayed, rule, input, s, w)
    ensures Covers(d, s) && Covers(d, w)
  {
    forall n | n in NodeSet(d) ensures n in s && n in w {
      assert OperandsKnown(d, s, n) && OperandsKnown(d, w, n);
    }
  }

  /**
    Whatever the nodes compute and whichever of them are delayed: every run of the netlist is a
    run of what is kept, so the rest constrained nothing.
  */
  lemma RunsKept(d: Design, keep: set<Id>, delayed: set<Id>, rule: Rule, inputs: seq<Id -> Value>,
                 ws: seq<map<Id, Value>>)
    requires Valid(d) && BackwardClosed(d, keep) && SettledRun(d, delayed, rule, inputs, ws)
    ensures SettledRun(Removed(d, keep), delayed, rule, inputs, ws)
  {
    forall i | 0 <= i < |inputs| ensures Settles(Removed(d, keep), delayed, rule, inputs[i], ws[i], ws[i + 1]) {
      SettlesCovers(d, delayed, rule, inputs[i], ws[i], ws[i + 1]);
      SettledKept(d, keep, delayed, rule, inputs[i], ws[i], ws[i + 1], ws[i]);
    }
  }

  /**
    And without a loop past the delayed nodes, runs before and after the removal agree on what is kept
    at every step.
  */
  lemma {:induction false} RunsAgree(d: Design, keep: set<Id>, delayed: set<Id>, level: Id -> nat, rule: Rule,
                                     inputs: seq<Id -> Value>, ws: seq<map<Id, Value>>, vs: seq<map<Id, Value>>, i: nat)
    requires Valid(d) && BackwardClosed(d, keep) && NoLoop(d, delayed, level)
    requires SettledRun(d, delayed, rule, inputs, ws) && SettledRun(Removed(d, keep), delayed, rule, inputs, vs)
    requires AgreeOn(d, keep, ws[0], vs[0]) && i <= |inputs|
    ensures AgreeOn(d, keep, ws[i], vs[i])
    decreases i
  {
    if i > 0 {
      RunsAgree(d, keep, delayed, level, rule, inputs, ws, vs, i - 1);
      assert Settles(d, delayed, rule, inputs[i - 1], ws[i - 1], ws[i - 1 + 1]);
      assert Settles(Removed(d, keep), delayed, rule, inputs[i - 1], vs[i - 1], vs[i - 1 + 1]);
      SettlesCovers(d, delayed, rule, inputs[i - 1], ws[i - 1], ws[i]);
      forall n | n in NodeSet(d) && n in keep ensures n in ws[i] && n in vs[i] && ws[i][n] == vs[i][n] {
        SettledAgree(d, keep, Removed(d, keep), delayed, level, rule, inputs[i - 1], ws[i - 1], ws[i], vs[i - 1],
            vs[i], n);
      }
    }
  }

  /** In particular every output has the same value at every step, operators settling within the step. */
  lemma OutputsSettled(d: Design, outs: set<Id>, delayed: set<Id>, level: Id -> nat, rule: Rule,
                       inputs: seq<Id -> Value>, ws: seq<map<Id, Value>>, vs: seq<map<Id, Value>>)
    requires Valid(d) && NoLoop(d, delayed, level) && SettledRun(d, delayed, rule, inputs, ws)
    requires SettledRun(Removed(d, UsefulSet(d, outs)), delayed, rule, inputs, vs)
    requires AgreeOn(d, UsefulSet(d, outs), ws[0], vs[0])
    ensures forall n, i :: n in d.nets && n in outs && 0 <= i <= |inputs| ==>
              n in ws[i] && n in vs[i] && ws[i][n] == vs[i][n]
  {
    var keep := UsefulSet(d, outs);
    UsefulClosed(d, outs);
    forall n, i | n in d.nets && n in outs && 0 <= i <= |inputs|
      ensures n in ws[i] && n in vs[i] && ws[i][n] == vs[i][n]
    {
      OutputUseful(d, outs, n);
      RunsAgree(d, keep, delayed, level, rule, inputs, ws, vs, i);
    }
  }

  lemma OutputUseful(d: Design, outs: set<Id>, n: Id)
    requires Valid(d) && n in d.nets && n in outs
    ensures n in UsefulSet(d, outs) && n in NodeSet(d)
  {
    assert PathFrom(d, outs, [n], n);
  }

  // ---------- The pass ----------

  /** The output nets in list order, as positions in the node list. */
  method CollectOutputs(ctx: Netlist) returns (starts: seq<nat>)
    requires Valid(ctx.View())
    ensures forall k :: k in starts <==> OutputAt(ctx.View(), ctx.isOut, k)
  {
    starts := [];
    for i := 0 to |ctx.nets|
      invariant forall k :: k in starts ==> OutputAt(ctx.View(), ctx.isOut, k)
      invariant forall j :: 0 <= j < i && ctx.nets[j] in ctx.isOut ==>
        ctx.nets[j] in ctx.index && ctx.index[ctx.nets[j]] in starts
    {
      var n := ctx.nets[i];
      if n in ctx.isOut {
        IndexOfNode(ctx.View(), n);
        starts := starts + [ctx.index[n]];
      }
    }
    forall k: nat | OutputAt(ctx.View(), ctx.isOut, k) ensures k in starts {
      var j :| 0 <= j < |ctx.nets| && ctx.nets[j] == ctx.nodes[k];
      assert ctx.index[ctx.nodes[k]] == k;
    }
  }

  lemma MaskIsUseful(d: Design, outs: set<Id>, starts: seq<nat>, mask: seq<bool>)
    requires FitsMask(d, mask)
    requires forall k :: k in starts <==> OutputAt(d, outs, k)
    requires forall i :: 0 <= i < |mask| ==> (mask[i] <==> TraverseRuns.Reachable(BackGraph(d), starts, i))
    ensures KeptSet(d, mask) == UsefulSet(d, outs)
    ensures AllKept(mask) <==> NodeSet(d) <= UsefulSet(d, outs)
  {
    forall i | 0 <= i < |mask| ensures mask[i] <==> d.nodes[i] in UsefulSet(d, outs) {
      ReachableIsUseful(d, outs, starts, i);
    }
    forall x | x in d.nodes ensures x in KeptSet(d, mask) <==> x in UsefulSet(d, outs) {
      KeptByIndex(d, mask, x);
    }
    if !AllKept(mask) {
      var i :| 0 <= i < |mask| && !mask[i];
      assert d.nodes[i] in NodeSet(d);
    }
  }

  /** How a run on a netlist with an output ends: it stops, or reports whether some node is useless. */
  ghost predicate Ends(d: Design, outs: set<Id>, outcome: Outcome) {
    && (outcome.NotANet? <==> Spills(d, UsefulSet(d, outs)))
    && (outcome.Finished? ==> (outcome.anyRemoved <==> !(NodeSet(d) <= UsefulSet(d, outs))))
  }

  /**
    Keeps exactly what an output depends on.  Without any output the flags are never written,
    so nothing is promised then.
  */
  method Apply(ctx: Netlist, threads: nat, limit: nat) returns (outcome: Outcome)
    requires Valid(ctx.View()) && threads > 0
    modifies ctx
    ensures ctx.isNet == old(ctx.isNet) && ctx.isOut == old(ctx.isOut)
    ensures old(ctx.nodes) == [] ==> outcome == Finished(false) && ctx.View() == old(ctx.View())
    ensures HasOutput(old(ctx.View()), old(ctx.isOut)) ==>
      var d, keep := old(ctx.View()), UsefulSet(old(ctx.View()), old(ctx.isOut));
      && Ends(d, old(ctx.isOut), outcome)
      && (outcome == Finished(false) ==> ctx.View() == d)
      && (outcome == Finished(true) ==> ctx.View() == Removed(d, keep) && Valid(ctx.View()))
  {
    if |ctx.nodes| == 0 {
      return Finished(false);
    }
    ghost var d := ctx.View();
    var starts := CollectOutputs(ctx);
    var q := new TraverseQuery.QueryTraverse(|ctx.nodes|);
    var graph := BackGraph(ctx.View());
    var log := q.Traverse(graph, limit, starts, threads);
    var mask := q.visited[..];
    if HasOutput(d, ctx.isOut) {
      StartsThen(d, ctx.isOut, starts);
      MaskIsUseful(d, ctx.isOut, starts, mask);
      SpillsMeansNotOnlyNets(d, mask);
      UsefulClosed(d, ctx.isOut);
      RemovedValid(d, UsefulSet(d, ctx.isOut));
    }
    outcome := ctx.Apply(mask, threads);
  }

  ghost predicate HasOutput(d: Design, outs: set<Id>) {
    exists n :: n in d.nets && n in outs
  }

  lemma StartsThen(d: Design, outs: set<Id>, starts: seq<nat>)
    requires Valid(d) && forall k :: k in starts <==> OutputAt(d, outs, k)
    ensures HasOutput(d, outs) <==> starts != []
  {
    if HasOutput(d, outs) {
      var n :| n in d.nets && n in outs;
      IndexOfNode(d, n);
      assert OutputAt(d, outs, d.index[n]);
    }
    if starts != [] {
      assert starts[0] in starts;
    }
  }

  lemma EverythingUseful(d: Design, outs: set<Id>)
    requires Valid(d)
    ensures var r := Removed(d, UsefulSet(d, outs)); Valid(r) && NodeSet(r) <= UsefulSet(r, outs)
  {
    var r := Removed(d, UsefulSet(d, outs));
    UsefulClosed(d, outs);
    RemovedValid(d, UsefulSet(d, outs));
    forall n | n in NodeSet(r) ensures n in UsefulSet(r, outs) {
      UsefulAgain(d, outs, n);
    }
  }

  lemma OutputStays(d: Design, outs: set<Id>)
    requires Valid(d) && HasOutput(d, outs)
    ensures HasOutput(Removed(d, UsefulSet(d, outs)), outs)
  {
    var n :| n in d.nets && n in outs;
    OutputUseful(d, outs, n);
    assert n in Removed(d, UsefulSet(d, outs)).nets;
  }

  lemma NothingToRemove(d: Design, outs: set<Id>, outcome: Outcome)
    requires NodeSet(d) <= UsefulSet(d, outs) && Ends(d, outs, outcome)
    ensures outcome == Finished(false)
  {
  }

  /** On the netlist left by a run, a run can only end by reporting that nothing was removed. */
  lemma SecondRunIdle(d: Design, outs: set<Id>, outcome: Outcome)
    requires Valid(d)
    ensures var r := Removed(d, UsefulSet(d, outs));
      && Valid(r) && (HasOutput(d, outs) ==> HasOutput(r, outs))
      && (Ends(r, outs, outcome) ==> outcome == Finished(false))
  {
    var r := Removed(d, UsefulSet(d, outs));
    EverythingUseful(d, outs);
    if HasOutput(d, outs) {
      OutputStays(d, outs);
    }
    if Ends(r, outs, outcome) {
      NothingToRemove(r, outs, outcome);
    }
  }

  /** Two runs in a row: unless the first stops, the second removes nothing and says so. */
  method ApplyTwice(ctx: Netlist, threads: nat, limit: nat) returns (first: Outcome, second: Outcome)
    requires Valid(ctx.View()) && threads > 0 && HasOutput(ctx.View(), ctx.isOut)
    modifies ctx
    ensures first.Finished? ==> second == Finished(false)
    ensures first == Finished(true)
        ==> ctx.View() == Removed(old(ctx.View()), UsefulSet(old(ctx.View()), old(ctx.isOut)))
    ensures first == Finished(false) ==> ctx.View() == old(ctx.View())
  {
    ghost var d, outs := ctx.View(), ctx.isOut;
    first := Apply(ctx, threads, limit);
    second := first;
    if first.Finished? {
      SecondRunIdle(d, outs, first);
      second := Apply(ctx, threads, limit);
      SecondRunIdle(d, outs, second);
    }
  }
}
