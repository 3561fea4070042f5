/**
  What a statement depends on (expr_sensitivity_probe.cpp, query_sensitivity.cpp).

  A net is its place in the order of creation, so the operands of a call come before its
  result.  The walk goes from conditions, sources and indexes back through calls, skipping
  what an earlier walk of the same statement has seen.
*/
module Sensitivity {
  import opened Statements
  import opened Merging

  /** What drives a net: a constant, one call, or anything else. */
  datatype Source = Const | Call(isEvent: bool, args: seq<Net>) | Leaf

  type Exprs = seq<Source>

  predicate WellFormed(g: Exprs) {
    forall n, i :: 0 <= n < |g| && g[n].Call? && 0 <= i < |g[n].args| ==> g[n].args[i] < n
  }

  predicate Below(ns: seq<Net>, bound: nat) {
    forall i :: 0 <= i < |ns| ==> ns[i] < bound
  }

  /** An entry of a sensitivity list: a net, or the event call that drives a net. */
  datatype Item = NetItem(net: Net) | CallItem(result: Net)

  datatype Sens = Sens(items: set<Item>, eventDep: bool)

  // ---------- What can be reached ----------

  /** The nets an expression is made of, down to leaves, constants and event calls. */
  function Reach(g: Exprs, n: Net): (r: set<Net>)
    requires WellFormed(g) && n < |g|
    ensures n in r && forall m :: m in r ==> m <= n
    decreases n
  {
    {n} + if g[n].Call? && !g[n].isEvent then ReachList(g, g[n].args, n) else {}
  }

  function ReachList(g: Exprs, ns: seq<Net>, bound: nat): (r: set<Net>)
    requires WellFormed(g) && bound <= |g| && Below(ns, bound)
    ensures forall m :: m in r ==> m < bound
    decreases bound, |ns|
  {
    if ns == [] then {} else Reach(g, ns[0]) + ReachList(g, ns[1..], bound)
  }

  function Leaves(g: Exprs, nets: set<Net>): set<Item> {
    set n | n in nets && n < |g| && g[n].Leaf? :: NetItem(n)
  }

  function Events(g: Exprs, nets: set<Net>): set<Item> {
    set n | n in nets && n < |g| && g[n].Call? && g[n].isEvent :: CallItem(n)
  }

  lemma {:induction false} ReachListConcat(g: Exprs, a: seq<Net>, b: seq<Net>, bound: nat)
    requires WellFormed(g) && bound <= |g| && Below(a, bound) && Below(b, bound)
    ensures Below(a + b, bound) && ReachList(g, a + b, bound) == ReachList(g, a, bound) + ReachList(g, b, bound)
  {
    if a == [] {
      assert a + b == b;
    } else {
      assert (a + b)[1..] == a[1..] + b;
      ReachListConcat(g, a[1..], b, bound);
    }
  }

  lemma {:induction false} ReachMember(g: Exprs, ns: seq<Net>, bound: nat, m: Net)
    requires WellFormed(g) && bound <= |g| && Below(ns, bound) && m in ReachList(g, ns, bound)
    ensures exists i :: 0 <= i < |ns| && m in Reach(g, ns[i])
  {
    if m !in Reach(g, ns[0]) {
      ReachMember(g, ns[1..], bound, m);
      var i :| 0 <= i < |ns| - 1 && m in Reach(g, ns[1..][i]);
      assert m in Reach(g, ns[i + 1]);
    }
  }

  lemma {:induction false} ReachElement(g: Exprs, ns: seq<Net>, bound: nat, i: nat)
    requires WellFormed(g) && bound <= |g| && Below(ns, bound) && i < |ns|
    ensures Reach(g, ns[i]) <= ReachList(g, ns, bound)
  {
    if i > 0 {
      ReachElement(g, ns[1..], bound, i - 1);
    }
  }

  lemma {:induction false} ReachTransitive(g: Exprs, n: Net, m: Net)
    requires WellFormed(g) && n < |g| && m in Reach(g, n)
    ensures Reach(g, m) <= Reach(g, n)
    decreases n
  {
    if m != n {
      ReachMember(g, g[n].args, n, m);
      var i :| 0 <= i < |g[n].args| && m in Reach(g, g[n].args[i]);
      ReachTransitive(g, g[n].args[i], m);
      ReachElement(g, g[n].args, n, i);
    }
  }

  // ---------- Chains of operands ----------

  /** From a net to an operand of the call that drives it, and on; event calls are not passed through. */
  predicate Chain(g: Exprs, path: seq<Net>) {
    && path != [] && (forall k :: 0 <= k < |path| ==> path[k] < |g|)
    && forall k :: 0 <= k < |path| - 1 ==>
      g[path[k]].Call? && !g[path[k]].isEvent && path[k + 1] in g[path[k]].args
  }

  ghost predicate LeadsTo(g: Exprs, n: Net, m: Net) {
    exists path: seq<Net> :: Chain(g, path) && path[0] == n && path[|path| - 1] == m
  }

  lemma ChainStep(g: Exprs, n: Net, path: seq<Net>)
    requires Chain(g, path) && n < |g| && g[n].Call? && !g[n].isEvent && path[0] in g[n].args
    ensures Chain(g, [n] + path)
  {
  }

  lemma {:induction false} ReachHasChain(g: Exprs, n: Net, m: Net) returns (path: seq<Net>)
    requires WellFormed(g) && n < |g| && m in Reach(g, n)
    ensures Chain(g, path) && path[0] == n && path[|path| - 1] == m
    decreases n
  {
    if m == n {
      return [n];
    }
    ReachMember(g, g[n].args, n, m);
    var i :| 0 <= i < |g[n].args| && m in Reach(g, g[n].args[i]);
    var rest := ReachHasChain(g, g[n].args[i], m);
    ChainStep(g, n, rest);
    path := [n] + rest;
  }

  lemma {:induction false} ChainReaches(g: Exprs, path: seq<Net>)
    requires WellFormed(g) && Chain(g, path)
    ensures path[|path| - 1] in Reach(g, path[0])
    decreases |path|
  {
    if |path| > 1 {
      var rest := path[1..];
      assert forall k :: 0 <= k < |rest| ==> rest[k] == path[k + 1];
      ChainReaches(g, rest);
      var args := g[path[0]].args;
      var i :| 0 <= i < |args| && args[i] == path[1];
      ReachElement(g, args, path[0], i);
    }
  }

  /** A net is made of those a chain of operands leads to from it. */
  lemma ReachIsChain(g: Exprs, n: Net, m: Net)
    requires WellFormed(g) && n < |g|
    ensures m in Reach(g, n) <==> LeadsTo(g, n, m)
  {
    if m in Reach(g, n) {
      var path := ReachHasChain(g, n, m);
    }
    if LeadsTo(g, n, m) {
      var path: seq<Net> :| Chain(g, path) && path[0] == n && path[|path| - 1] == m;
      ChainReaches(g, path);
    }
  }

  // ---------- The walk ----------

  /** Everything below `bound` that was seen was seen with all it is made of. */
  ghost predicate Settled(g: Exprs, seen: set<Net>, bound: nat)
    requires WellFormed(g)
  {
    forall m :: m in seen && m < bound ==> m < |g| && Reach(g, m) <= seen
  }

  lemma SettledMoreList(g: Exprs, seen: set<Net>, ns: seq<Net>, bound: nat)
    requires WellFormed(g) && Settled(g, seen, bound) && bound <= |g| && Below(ns, bound)
    ensures Settled(g, seen + ReachList(g, ns, bound), bound)
    decreases |ns|
  {
    if ns != [] {
      SettledMore(g, seen, bound, ns[0]);
      SettledMoreList(g, seen + Reach(g, ns[0]), ns[1..], bound);
      assert (seen + Reach(g, ns[0])) + ReachList(g, ns[1..], bound) == seen + ReachList(g, ns, bound);
    } else {
      assert seen + ReachList(g, ns, bound) == seen;
    }
  }

  lemma SettledMore(g: Exprs, seen: set<Net>, bound: nat, n: Net)
    requires WellFormed(g) && Settled(g, seen, bound) && n < |g|
    ensures Settled(g, seen + Reach(g, n), bound)
  {
    forall m | m in seen + Reach(g, n) && m < bound ensures m < |g| && Reach(g, m) <= seen + Reach(g, n) {
      if m !in seen {
        ReachTransitive(g, n, m);
      }
    }
  }

  /** An event call is on the list. */
  predicate Hit(s: Sens) {
    exists i :: i in s.items && i.CallItem?
  }

  /**
    The outcome of a walk over the nets `reach` that started with `seen`: all leaves and
    event calls not seen before are added, and nothing that is not in `reach`.
  */
  ghost predicate Walked(g: Exprs, reach: set<Net>, seen: set<Net>, casual: set<Item>, s: Sens, casual': set<Item>,
                         s': Sens)
  {
    && casual + Leaves(g, reach - seen) <= casual' <= casual + Leaves(g, reach)
    && s.items + Events(g, reach - seen) <= s'.items <= s.items + Events(g, reach)
    && (s.eventDep || Events(g, reach - seen) != {} ==> s'.eventDep)
    && (s'.eventDep ==> s.eventDep || Hit(s'))
  }

  lemma Parts(g: Exprs, a: set<Net>, b: set<Net>)
    ensures Leaves(g, a + b) == Leaves(g, a) + Leaves(g, b)
    ensures Events(g, a + b) == Events(g, a) + Events(g, b)
  {
  }

  lemma WalkedThen(g: Exprs, a: set<Net>, b: set<Net>, seen: set<Net>, c0: set<Item>, s0: Sens,
                   c1: set<Item>, s1: Sens, c2: set<Item>, s2: Sens)
    requires Walked(g, a, seen, c0, s0, c1, s1) && Walked(g, b, seen + a, c1, s1, c2, s2)
    ensures Walked(g, a + b, seen, c0, s0, c2, s2)
  {
    Parts(g, a, b);
    Parts(g, a - seen, b - (seen + a));
    assert (a + b) - seen == (a - seen) + (b - (seen + a));
    if s1.eventDep && Hit(s1) {
      var i :| i in s1.items && i.CallItem?;
      assert i in s2.items;
    }
  }

  method ProbeNet(g: Exprs, n: Net, casual: set<Item>, seen: set<Net>, s: Sens)
    returns (casual': set<Item>, seen': set<Net>, s': Sens)
    requires WellFormed(g) && n < |g| && Settled(g, seen, n)
    ensures seen' == seen + Reach(g, n)
    ensures Walked(g, Reach(g, n), seen, casual, s, casual', s')
    decreases n, 1
  {
    casual', seen', s' := casual, seen + {n}, s;
    if g[n].Const? {
      return;
    }
    if g[n].Leaf? {
      casual' := casual' + {NetItem(n)};
      return;
    }
    casual', seen', s' := ProbeCall(g, n, casual', seen, seen', s');
  }

  /** The call that drives `n`: an event call is recorded, any other is walked through. */
  method ProbeCall(g: Exprs, n: Net, casual: set<Item>, ghost before: set<Net>, seen: set<Net>, s: Sens)
    returns (casual': set<Item>, seen': set<Net>, s': Sens)
    requires WellFormed(g) && n < |g| && g[n].Call? && Settled(g, seen, n) && seen == before + {n}
    ensures seen' == seen + Reach(g, n)
    ensures Walked(g, Reach(g, n), before, casual, s, casual', s')
    decreases n, 0, |g[n].args| + 1
  {
    casual', seen', s' := casual, seen, s;
    if g[n].isEvent {
      s' := Sens(s.items + {CallItem(n)}, true);
      assert CallItem(n) in s'.items;
      return;
    }
    casual', seen', s' := ProbeArgs(g, g[n].args, n, casual, seen, s);
    CallWalked(g, n, before, casual, s, casual', s');
  }

  lemma CallWalked(g: Exprs, n: Net, seen: set<Net>, c0: set<Item>, s0: Sens, c1: set<Item>, s1: Sens)
    requires WellFormed(g) && n < |g| && g[n].Call? && !g[n].isEvent
    requires Walked(g, ReachList(g, g[n].args, n), seen + {n}, c0, s0, c1, s1)
    ensures Walked(g, Reach(g, n), seen, c0, s0, c1, s1)
  {
    var r := ReachList(g, g[n].args, n);
    Parts(g, {n}, r);
    assert Leaves(g, r - (seen + {n})) == Leaves(g, Reach(g, n) - seen);
    assert Events(g, r - (seen + {n})) == Events(g, Reach(g, n) - seen);
  }

  /** The operands in order, skipping those seen. */
  method ProbeArgs(g: Exprs, args: seq<Net>, n: Net, casual: set<Item>, seen: set<Net>, s: Sens)
    returns (casual': set<Item>, seen': set<Net>, s': Sens)
    requires WellFormed(g) && n <= |g| && Below(args, n) && Settled(g, seen, n)
    ensures seen' == seen + ReachList(g, args, n)
    ensures Walked(g, ReachList(g, args, n), seen, casual, s, casual', s')
    decreases n, 0, |args|
  {
    casual', seen', s' := casual, seen, s;
    for i := 0 to |args|
      invariant seen' == seen + ReachList(g, args[..i], n) && Settled(g, seen', n)
      invariant Walked(g, ReachList(g, args[..i], n), seen, casual, s, casual', s')
    {
      ghost var c0, s0, seen0 := casual', s', seen';
      SettledMore(g, seen', n, args[i]);
      if args[i] !in seen' {
        casual', seen', s' := ProbeNet(g, args[i], casual', seen', s');
      }
      WalkedThen(g, ReachList(g, args[..i], n), Reach(g, args[i]), seen, casual, s, c0, s0, casual', s');
      ReachListStep(g, args, i, n);
    }
    assert args[..|args|] == args;
  }

  lemma ReachListStep(g: Exprs, ns: seq<Net>, i: nat, bound: nat)
    requires WellFormed(g) && bound <= |g| && Below(ns, bound) && i < |ns|
    ensures ReachList(g, ns[..i + 1], bound) == ReachList(g, ns[..i], bound) + Reach(g, ns[i])
  {
    assert ns[..i + 1] == ns[..i] + [ns[i]];
    ReachListConcat(g, ns[..i], [ns[i]], bound);
    assert ReachList(g, [ns[i]], bound) == Reach(g, ns[i]);
  }

  // ---------- Statements ----------

  /** Every net a statement names is in the graph. */
  predicate Inside(g: Exprs, s: Stm)
    decreases s, 1
  {
    match s
    case Assign(_, index, src) => Below(index, |g|) && src < |g|
    case If(cond, t, e, _, f, _) => cond < |g| && InsideList(g, t) && InsideBranches(g, e) && InsideList(g, f)
  }

  predicate InsideList(g: Exprs, l: seq<Stm>)
    decreases l, 0
  {
    l == [] || (Inside(g, l[0]) && InsideList(g, l[1..]))
  }

  predicate InsideBranches(g: Exprs, bs: seq<Branch>)
    decreases bs, 0
  {
    bs == [] || (bs[0].cond < |g| && InsideList(g, bs[0].body) && InsideBranches(g, bs[1..]))
  }

  /** Everything the conditions, sources and indexes of a statement are made of. */
  function Reads(g: Exprs, s: Stm): set<Net>
    requires WellFormed(g) && Inside(g, s)
    decreases s, 1
  {
    match s
    case Assign(_, index, src) => ReachList(g, index + [src], |g|)
    case If(cond, t, e, given, f, _) =>
      Reach(g, cond) + ReadsList(g, t) + ReadsBranches(g, e) + if given then ReadsList(g, f) else {}
  }

  function ReadsList(g: Exprs, l: seq<Stm>): set<Net>
    requires WellFormed(g) && InsideList(g, l)
    decreases l, 0
  {
    if l == [] then {} else Reads(g, l[0]) + ReadsList(g, l[1..])
  }

  function ReadsBranches(g: Exprs, bs: seq<Branch>): set<Net>
    requires WellFormed(g) && InsideBranches(g, bs)
    decreases bs, 0
  {
    if bs == [] then {} else Reach(g, bs[0].cond) + ReadsList(g, bs[0].body) + ReadsBranches(g, bs[1..])
  }

  // ---------- What a statement depends on ----------

  /**
    One step down into a statement: to statement `i` of the first branch, of else-if `k`, or of a
    given else branch.
  */
  datatype Down = InThen(i: nat) | InElif(k: nat, i: nat) | InElse(i: nat)

  /** Following `pos` from `s` one arrives at `t`. */
  predicate Holds(s: Stm, pos: seq<Down>, t: Stm)
    decreases |pos|
  {
    if pos == [] then s == t else
      && s.If?
      && match pos[0]
         case InThen(i) => i < |s.ifTrue| && Holds(s.ifTrue[i], pos[1..], t)
         case InElif(k, i) =>
           k < |s.elseIf| && i < |s.elseIf[k].body| && Holds(s.elseIf[k].body[i], pos[1..], t)
         case InElse(i) => s.falseSpecified && i < |s.ifFalse| && Holds(s.ifFalse[i], pos[1..], t)
  }

  /** The statement itself reads `n`: as a condition, as its source, or as an index. */
  ghost predicate Names(t: Stm, n: Net) {
    match t
    case Assign(_, index, src) => n == src || n in index
    case If(cond, _, e, _, _, _) => n == cond || exists k :: 0 <= k < |e| && n == e[k].cond
  }

  /** From a condition, source or index somewhere in the statement a chain of operands leads to `m`. */
  ghost predicate DependsOn(g: Exprs, s: Stm, m: Net) {
    exists pos, t, n :: Holds(s, pos, t) && Names(t, n) && LeadsTo(g, n, m)
  }

  lemma {:induction false} NamedIsRead(g: Exprs, t: Stm, n: Net)
    requires WellFormed(g) && Inside(g, t) && Names(t, n)
    ensures n < |g| && Reach(g, n) <= Reads(g, t)
  {
    match t
    case Assign(_, index, src) =>
      var all := index + [src];
      if n == src {
        ReachElement(g, all, |g|, |index|);
      } else {
        var i :| 0 <= i < |index| && index[i] == n;
        assert all[i] == n;
        ReachElement(g, all, |g|, i);
      }
    case If(cond, _, e, _, _, _) =>
      if n != cond {
        var k :| 0 <= k < |e| && n == e[k].cond;
        BranchIsRead(g, e, k);
      }
  }

  lemma {:induction false} BranchIsRead(g: Exprs, bs: seq<Branch>, k: nat)
    requires WellFormed(g) && InsideBranches(g, bs) && k < |bs|
    ensures bs[k].cond < |g| && Reach(g, bs[k].cond) <= ReadsBranches(g, bs)
    ensures InsideList(g, bs[k].body) && ReadsList(g, bs[k].body) <= ReadsBranches(g, bs)
  {
    if k > 0 {
      BranchIsRead(g, bs[1..], k - 1);
    }
  }

  lemma {:induction false} ElementIsRead(g: Exprs, l: seq<Stm>, i: nat)
    requires WellFormed(g) && InsideList(g, l) && i < |l|
    ensures Inside(g, l[i]) && Reads(g, l[i]) <= ReadsList(g, l)
  {
    if i > 0 {
      ElementIsRead(g, l[1..], i - 1);
    }
  }

  /** What a statement inside another reads, the other one reads. */
  lemma {:induction false} InnerIsRead(g: Exprs, s: Stm, pos: seq<Down>, t: Stm)
    requires WellFormed(g) && Inside(g, s) && Holds(s, pos, t)
    ensures Inside(g, t) && Reads(g, t) <= Reads(g, s)
    decreases |pos|
  {
    if pos != [] {
      match pos[0]
      case InThen(i) =>
        ElementIsRead(g, s.ifTrue, i);
        InnerIsRead(g, s.ifTrue[i], pos[1..], t);
      case InElif(k, i) =>
        BranchIsRead(g, s.elseIf, k);
        ElementIsRead(g, s.elseIf[k].body, i);
        InnerIsRead(g, s.elseIf[k].body[i], pos[1..], t);
      case InElse(i) =>
        ElementIsRead(g, s.ifFalse, i);
        InnerIsRead(g, s.ifFalse[i], pos[1..], t);
    }
  }

  /** Whatever is read is read somewhere in the tree. */
  lemma {:induction false} ReadSomewhere(g: Exprs, s: Stm, m: Net) returns (pos: seq<Down>, t: Stm, n: Net)
    requires WellFormed(g) && Inside(g, s) && m in Reads(g, s)
    ensures Holds(s, pos, t) && Names(t, n) && n < |g| && m in Reach(g, n)
    decreases s, 1
  {
    if s.Assign? {
      var all := s.index + [s.src];
      ReachMember(g, all, |g|, m);
      var i :| 0 <= i < |all| && m in Reach(g, all[i]);
      return [], s, all[i];
    }
    if m in Reach(g, s.cond) {
      return [], s, s.cond;
    }
    if m in ReadsList(g, s.ifTrue) {
      var i;
      i, pos, t, n := ReadInList(g, s.ifTrue, m);
      pos := Deeper(InThen(i), pos);
    } else if m in ReadsBranches(g, s.elseIf) {
      var k := ReadInBranch(g, s.elseIf, m);
      BranchIsRead(g, s.elseIf, k);
      if m in Reach(g, s.elseIf[k].cond) {
        return [], s, s.elseIf[k].cond;
      }
      var i;
      i, pos, t, n := ReadInList(g, s.elseIf[k].body, m);
      pos := Deeper(InElif(k, i), pos);
    } else {
      var i;
      i, pos, t, n := ReadInList(g, s.ifFalse, m);
      pos := Deeper(InElse(i), pos);
    }
  }

  function Deeper(d: Down, pos: seq<Down>): (r: seq<Down>)
    ensures r != [] && r[0] == d && r[1..] == pos
  {
    [d] + pos
  }

  lemma {:induction false} ReadInList(g: Exprs, l: seq<Stm>, m: Net)
    returns (i: nat, pos: seq<Down>, t: Stm, n: Net)
    requires WellFormed(g) && InsideList(g, l) && m in ReadsList(g, l)
    ensures i < |l| && Holds(l[i], pos, t) && Names(t, n) && n < |g| && m in Reach(g, n)
    decreases l, 0
  {
    if m in Reads(g, l[0]) {
      i := 0;
      pos, t, n := ReadSomewhere(g, l[0], m);
    } else {
      i, pos, t, n := ReadInList(g, l[1..], m);
      i := i + 1;
    }
  }

  lemma {:induction false} ReadInBranch(g: Exprs, bs: seq<Branch>, m: Net) returns (k: nat)
    requires WellFormed(g) && InsideBranches(g, bs) && m in ReadsBranches(g, bs)
    ensures k < |bs| && bs[k].cond < |g| && InsideList(g, bs[k].body)
    ensures m in Reach(g, bs[k].cond) || m in ReadsList(g, bs[k].body)
  {
    if m in Reach(g, bs[0].cond) || m in ReadsList(g, bs[0].body) {
      return 0;
    }
    k := ReadInBranch(g, bs[1..], m);
    k := k + 1;
  }

  /** Everything read is what the statement depends on, and the other way round. */
  lemma ReadsExactly(g: Exprs, s: Stm, m: Net)
    requires WellFormed(g) && Inside(g, s)
    ensures m in Reads(g, s) <==> DependsOn(g, s, m)
  {
    if m in Reads(g, s) {
      var pos, t, n := ReadSomewhere(g, s, m);
      ReachIsChain(g, n, m);
    }
    if DependsOn(g, s, m) {
      var pos, t, n :| Holds(s, pos, t) && Names(t, n) && LeadsTo(g, n, m);
      InnerIsRead(g, s, pos, t);
      NamedIsRead(g, t, n);
      ReachIsChain(g, n, m);
    }
  }

  /**
    The outcome of the query over statements that read `used`: nothing foreign is listed,
    and unless an event call is, everything was walked and every leaf not seen before is.
  */
  ghost predicate Queried(g: Exprs, used: set<Net>, seen: set<Net>, s: Sens, seen': set<Net>, s': Sens) {
    && seen <= seen' <= seen + used
    && s.items <= s'.items <= s.items + Leaves(g, used) + Events(g, used)
    && (s'.eventDep ==> s.eventDep || Hit(s'))
    && (!Hit(s') ==> seen' == seen + used && Events(g, used - seen) == {} && Leaves(g, used - seen) <= s'.items)
  }

  lemma HitStays(s: Sens, t: Sens)
    requires Hit(s) && s.items <= t.items
    ensures Hit(t)
  {
    var i :| i in s.items && i.CallItem?;
    assert i in t.items;
  }

  lemma NothingRead(g: Exprs, seen: set<Net>, s: Sens)
    ensures Queried(g, {}, seen, s, seen, s)
  {
  }

  lemma QueriedThen(g: Exprs, a: set<Net>, b: set<Net>, seen0: set<Net>, s0: Sens, seen1: set<Net>, s1: Sens,
      seen2: set<Net>, s2: Sens)
    requires Queried(g, a, seen0, s0, seen1, s1) && Queried(g, b, seen1, s1, seen2, s2)
    ensures Queried(g, a + b, seen0, s0, seen2, s2)
  {
    Parts(g, a, b);
    if Hit(s1) {
      HitStays(s1, s2);
    } else if !Hit(s2) {
      Parts(g, a - seen0, b - seen1);
      assert (a + b) - seen0 == (a - seen0) + (b - seen1);
    }
  }

  /** After an event call what is left out does not matter. */
  lemma QueriedStops(g: Exprs, a: set<Net>, b: set<Net>, seen: set<Net>, s: Sens, seen': set<Net>, s': Sens)
    requires Queried(g, a, seen, s, seen', s') && Hit(s')
    ensures Queried(g, a + b, seen, s, seen', s')
  {
    Parts(g, a, b);
  }

  /** The list of a nested statement is taken over; its event flag is not. */
  function Extend(s: Sens, child: Sens): Sens {
    Sens(s.items + child.items, s.eventDep)
  }

  lemma QueriedChild(g: Exprs, used: set<Net>, seen: set<Net>, s: Sens, seen': set<Net>, child: Sens)
    requires Queried(g, used, seen, Sens({}, false), seen', child)
    ensures Queried(g, used, seen, s, seen', Extend(s, child))
  {
    if Hit(child) {
      HitStays(child, Extend(s, child));
    }
  }

  /** An event call not seen before is listed, sets the flag, and keeps the leaves off the list. */
  ghost predicate EventsOnly(g: Exprs, used: set<Net>, seen: set<Net>, s: Sens, s': Sens) {
    Events(g, used - seen) != {} ==>
      s'.eventDep && s.items + Events(g, used - seen) <= s'.items <= s.items + Events(g, used)
  }

  /** One condition; its leaves are listed unless an event call has been met. */
  method ProbeRoot(g: Exprs, n: Net, seen: set<Net>, s: Sens) returns (seen': set<Net>, s': Sens)
    requires WellFormed(g) && n < |g| && Settled(g, seen, |g|) && (s.eventDep ==> Hit(s))
    ensures Settled(g, seen', |g|) && Queried(g, Reach(g, n), seen, s, seen', s') && (s'.eventDep ==> Hit(s'))
    ensures EventsOnly(g, Reach(g, n), seen, s, s')
  {
    SettledMore(g, seen, |g|, n);
    var casual;
    casual, seen', s' := ProbeNet(g, n, {}, seen, s);
    if s.eventDep {
      HitStays(s, s');
    }
    if !s'.eventDep {
      ghost var s1 := s';
      s' := Sens(s'.items + casual, false);
      assert Hit(s1) ==> Hit(s') by {
        if Hit(s1) {
          HitStays(s1, s');
        }
      }
    }
  }

  method OfAssignment(g: Exprs, a: Stm, seen: set<Net>) returns (seen': set<Net>, sens: Sens)
    requires WellFormed(g) && Inside(g, a) && a.Assign? && Settled(g, seen, |g|)
    ensures Settled(g, seen', |g|) && Queried(g, Reads(g, a), seen, Sens({}, false), seen', sens)
    ensures Leaves(g, Reads(g, a) - seen) + Events(g, Reads(g, a) - seen) <= sens.items
  {
    var casual;
    SettledMoreList(g, seen, a.index + [a.src], |g|);
    casual, seen', sens := ProbeArgs(g, a.index + [a.src], |g|, {}, seen, Sens({}, false));
    ghost var s1 := sens;
    sens := Sens(sens.items + casual, sens.eventDep);
    if Hit(s1) {
      HitStays(s1, sens);
    }
  }

  method OfStm(g: Exprs, s: Stm, seen: set<Net>) returns (seen': set<Net>, sens: Sens)
    requires WellFormed(g) && Inside(g, s) && Settled(g, seen, |g|)
    ensures Settled(g, seen', |g|) && Queried(g, Reads(g, s), seen, Sens({}, false), seen', sens)
    ensures s.Assign? ==> Leaves(g, Reads(g, s) - seen) + Events(g, Reads(g, s) - seen) <= sens.items
    ensures s.If? ==> EventsOnly(g, Reach(g, s.cond), seen, Sens({}, false), sens)
    decreases s, 2
  {
    if s.Assign? {
      seen', sens := OfAssignment(g, s, seen);
    } else {
      seen', sens := OfIf(g, s, seen);
    }
  }

  /** The statements of a branch, each with the shared `seen` and a list of its own. */
  method OfList(g: Exprs, l: seq<Stm>, seen: set<Net>, s: Sens) returns (seen': set<Net>, s': Sens)
    requires WellFormed(g) && InsideList(g, l) && Settled(g, seen, |g|)
    ensures Settled(g, seen', |g|) && Queried(g, ReadsList(g, l), seen, s, seen', s') && s'.eventDep == s.eventDep
    decreases l, 0
  {
    seen', s' := seen, s;
    ghost var done: set<Net> := {};
    NothingRead(g, seen, s);
    for i := 0 to |l|
      invariant InsideList(g, l[i..]) && Settled(g, seen', |g|) && s'.eventDep == s.eventDep
      invariant done + ReadsList(g, l[i..]) == ReadsList(g, l)
      invariant Queried(g, done, seen, s, seen', s')
    {
      ghost var seen1, s1 := seen', s';
      assert l[i..][0] == l[i] && l[i..][1..] == l[i + 1..];
      var child;
      seen', child := OfStm(g, l[i], seen');
      QueriedChild(g, Reads(g, l[i]), seen1, s', seen', child);
      s' := Extend(s', child);
      QueriedThen(g, done, Reads(g, l[i]), seen, s, seen1, s1, seen', s');
      done := done + Reads(g, l[i]);
    }
  }

  method OfElifs(g: Exprs, bs: seq<Branch>, seen: set<Net>, s: Sens) returns (seen': set<Net>, s': Sens)
    requires WellFormed(g) && InsideBranches(g, bs) && Settled(g, seen, |g|) && (s.eventDep ==> Hit(s))
    ensures Settled(g, seen', |g|) && Queried(g, ReadsBranches(g, bs), seen, s, seen', s') && (s'.eventDep ==> Hit(s'))
    decreases bs, 0
  {
    seen', s' := seen, s;
    ghost var done: set<Net> := {};
    NothingRead(g, seen, s);
    for i := 0 to |bs|
      invariant InsideBranches(g, bs[i..]) && Settled(g, seen', |g|) && (s'.eventDep ==> Hit(s'))
      invariant done + ReadsBranches(g, bs[i..]) == ReadsBranches(g, bs)
      invariant Queried(g, done, seen, s, seen', s')
    {
      assert bs[i..][0] == bs[i] && bs[i..][1..] == bs[i + 1..];
      if s'.eventDep {
        QueriedStops(g, done, ReadsBranches(g, bs[i..]), seen, s, seen', s');
        break;
      }
      ghost var seen1, s1 := seen', s';
      seen', s' := ProbeRoot(g, bs[i].cond, seen', s');
      QueriedThen(g, done, Reach(g, bs[i].cond), seen, s, seen1, s1, seen', s');
      done := done + Reach(g, bs[i].cond);
      if s'.eventDep {
        QueriedStops(g, done, ReadsBranches(g, bs[i..]), seen, s, seen', s');
        assert done + ReadsBranches(g, bs[i..]) == ReadsBranches(g, bs);
        break;
      }
      seen1, s1 := seen', s';
      seen', s' := OfList(g, bs[i].body, seen', s');
      QueriedThen(g, done, ReadsList(g, bs[i].body), seen, s, seen1, s1, seen', s');
      done := done + ReadsList(g, bs[i].body);
    }
  }

  /** Stops at an event call in the first condition; an else branch is walked even after one in an elif. */
  method OfIf(g: Exprs, s: Stm, seen: set<Net>) returns (seen': set<Net>, sens: Sens)
    requires WellFormed(g) && Inside(g, s) && s.If? && Settled(g, seen, |g|)
    ensures Settled(g, seen', |g|) && Queried(g, Reads(g, s), seen, Sens({}, false), seen', sens)
    ensures EventsOnly(g, Reach(g, s.cond), seen, Sens({}, false), sens)
    decreases s, 1
  {
    ghost var s0 := Sens({}, false);
    seen', sens := ProbeRoot(g, s.cond, seen, Sens({}, false));
    ghost var done := Reach(g, s.cond);
    if sens.eventDep {
      QueriedStops(g, done, Reads(g, s), seen, s0, seen', sens);
      assert done + Reads(g, s) == Reads(g, s);
      return;
    }
    ghost var seen1, s1 := seen', sens;
    seen', sens := OfList(g, s.ifTrue, seen', sens);
    QueriedThen(g, done, ReadsList(g, s.ifTrue), seen, s0, seen1, s1, seen', sens);
    done := done + ReadsList(g, s.ifTrue);
    seen1, s1 := seen', sens;
    seen', sens := OfElifs(g, s.elseIf, seen', sens);
    QueriedThen(g, done, ReadsBranches(g, s.elseIf), seen, s0, seen1, s1, seen', sens);
    done := done + ReadsBranches(g, s.elseIf);
    if s.falseSpecified {
      seen1, s1 := seen', sens;
      seen', sens := OfList(g, s.ifFalse, seen', sens);
      QueriedThen(g, done, ReadsList(g, s.ifFalse), seen, s0, seen1, s1, seen', sens);
    }
  }

  predicate IsLeaf(g: Exprs, n: Net) {
    n < |g| && g[n].Leaf?
  }

  predicate IsEvent(g: Exprs, n: Net) {
    n < |g| && g[n].Call? && g[n].isEvent
  }

  /** The item is a leaf or an event call that the statement depends on. */
  ghost predicate ListedFor(g: Exprs, s: Stm, x: Item) {
    match x
    case NetItem(n) => IsLeaf(g, n) && DependsOn(g, s, n)
    case CallItem(n) => IsEvent(g, n) && DependsOn(g, s, n)
  }

  /** An event call its first condition is made of. */
  ghost predicate Clocked(g: Exprs, s: Stm, x: Item) {
    s.If? && x.CallItem? && IsEvent(g, x.result) && LeadsTo(g, s.cond, x.result)
  }

  lemma UsedIsListed(g: Exprs, s: Stm, x: Item)
    requires WellFormed(g) && Inside(g, s)
    ensures x in Leaves(g, Reads(g, s)) + Events(g, Reads(g, s)) <==> ListedFor(g, s, x)
    ensures s.If? ==> (x in Events(g, Reach(g, s.cond)) <==> Clocked(g, s, x))
  {
    var n := if x.NetItem? then x.net else x.result;
    ReadsExactly(g, s, n);
    if s.If? {
      ReachIsChain(g, s.cond, n);
    }
  }

  /**
    The query on a top statement, which starts with nothing seen.  What it lists, the
    statement depends on.  An event call is listed exactly when the statement depends on one;
    if not, and for an assignment always, everything it depends on is listed, whatever was
    skipped as seen on the way.  If the first condition has event calls, these are the list.
  */
  method Query(g: Exprs, s: Stm) returns (sens: Sens)
    requires WellFormed(g) && Inside(g, s)
    ensures forall x :: x in sens.items ==> ListedFor(g, s, x)
    ensures Hit(sens) <==> exists x: Item :: x.CallItem? && ListedFor(g, s, x)
    ensures !Hit(sens) || s.Assign? ==> forall x :: x in sens.items <==> ListedFor(g, s, x)
    ensures (exists x :: Clocked(g, s, x)) ==> sens.eventDep && forall x :: x in sens.items <==> Clocked(g, s, x)
    ensures sens.eventDep ==> Hit(sens)
  {
    var seen;
    seen, sens := OfStm(g, s, {});
    assert Reads(g, s) - {} == Reads(g, s);
    forall x: Item {
      UsedIsListed(g, s, x);
    }
    if Hit(sens) {
      var i :| i in sens.items && i.CallItem?;
      assert ListedFor(g, s, i);
    }
    if s.If? {
      assert Reach(g, s.cond) - {} == Reach(g, s.cond);
    }
  }

  // ---------- The list is enough ----------

  /** What a call computes from its operands, and a constant from nothing. */
  type Rule = (Net, seq<Value>) -> Value

  /** Nets driven by calls and constants hold what these compute. */
  ghost predicate Consistent(g: Exprs, rule: Rule, env: Env) {
    && (forall n :: 0 <= n < |g| && g[n].Const? ==> env(n) == rule(n, []))
    && (forall n :: 0 <= n < |g| && g[n].Call? && !g[n].isEvent ==> env(n) == rule(n, Values(g[n].args, env)))
  }

  ghost predicate Agree(g: Exprs, nets: set<Net>, e1: Env, e2: Env) {
    && Events(g, nets) == {}
    && forall n :: n in nets && n < |g| && g[n].Leaf? ==> e1(n) == e2(n)
  }

  lemma AgreeLess(g: Exprs, nets: set<Net>, part: set<Net>, e1: Env, e2: Env)
    requires Agree(g, nets, e1, e2) && part <= nets
    ensures Agree(g, part, e1, e2)
  {
    Parts(g, part, nets);
    assert part + nets == nets;
  }

  lemma {:induction false} SameValue(g: Exprs, rule: Rule, n: Net, e1: Env, e2: Env)
    requires WellFormed(g) && n < |g| && Consistent(g, rule, e1) && Consistent(g, rule, e2)
    requires Agree(g, Reach(g, n), e1, e2)
    ensures e1(n) == e2(n)
    decreases n, 1
  {
    if g[n].Call? {
      assert !g[n].isEvent by {
        assert CallItem(n) !in Events(g, Reach(g, n));
      }
      AgreeLess(g, Reach(g, n), ReachList(g, g[n].args, n), e1, e2);
      SameValues(g, rule, g[n].args, n, e1, e2);
    }
  }

  lemma {:induction false} SameValues(g: Exprs, rule: Rule, ns: seq<Net>, bound: nat, e1: Env, e2: Env)
    requires WellFormed(g) && bound <= |g| && Below(ns, bound) && Consistent(g, rule, e1) && Consistent(g, rule, e2)
    requires Agree(g, ReachList(g, ns, bound), e1, e2)
    ensures Values(ns, e1) == Values(ns, e2)
    decreases bound, 0, |ns|
  {
    forall i | 0 <= i < |ns| ensures e1(ns[i]) == e2(ns[i]) {
      ReachElement(g, ns, bound, i);
      AgreeLess(g, ReachList(g, ns, bound), Reach(g, ns[i]), e1, e2);
      SameValue(g, rule, ns[i], e1, e2);
    }
  }

  /** Environments that agree on every leaf a statement reads make it write the same. */
  lemma {:induction false} LeavesDecide(g: Exprs, rule: Rule, s: Stm, e1: Env, e2: Env)
    requires WellFormed(g) && Inside(g, s) && ElseGiven(s) && Consistent(g, rule, e1) && Consistent(g, rule, e2)
    requires Agree(g, Reads(g, s), e1, e2)
    ensures Exec(s, e1) == Exec(s, e2)
    decreases s, 1
  {
    match s
    case Assign(_, index, src) =>
      SameValues(g, rule, index + [src], |g|, e1, e2);
      var v1, v2 := Values(index + [src], e1), Values(index + [src], e2);
      assert v1[..|index|] == Values(index, e1) && v2[..|index|] == Values(index, e2);
      assert v1[|index|] == e1(src) && v2[|index|] == e2(src);
    case If(cond, t, e, given, f, _) =>
      AgreeLess(g, Reads(g, s), Reach(g, cond), e1, e2);
      SameValue(g, rule, cond, e1, e2);
      AgreeLess(g, Reads(g, s), ReadsList(g, t), e1, e2);
      AgreeLess(g, Reads(g, s), ReadsBranches(g, e), e1, e2);
      if given {
        AgreeLess(g, Reads(g, s), ReadsList(g, f), e1, e2);
      }
      if e1(cond) != 0 {
        LeavesDecideList(g, rule, t, e1, e2);
      } else {
        if given {
          LeavesDecideList(g, rule, f, e1, e2);
        }
        LeavesDecideBranches(g, rule, e, f, e1, e2);
      }
  }

  lemma {:induction false} LeavesDecideList(g: Exprs, rule: Rule, l: seq<Stm>, e1: Env, e2: Env)
    requires WellFormed(g) && InsideList(g, l) && ElseGivenList(l) && Consistent(g, rule, e1) && Consistent(g, rule, e2)
    requires Agree(g, ReadsList(g, l), e1, e2)
    ensures ExecList(l, e1) == ExecList(l, e2)
    decreases l, 0
  {
    if l != [] {
      AgreeLess(g, ReadsList(g, l), Reads(g, l[0]), e1, e2);
      AgreeLess(g, ReadsList(g, l), ReadsList(g, l[1..]), e1, e2);
      LeavesDecide(g, rule, l[0], e1, e2);
      LeavesDecideList(g, rule, l[1..], e1, e2);
    }
  }

  lemma {:induction false} LeavesDecideBranches(g: Exprs, rule: Rule, bs: seq<Branch>, els: seq<Stm>, e1: Env, e2: Env)
    requires WellFormed(g) && InsideBranches(g, bs) && ElseGivenBranches(bs)
    requires Consistent(g, rule, e1) && Consistent(g, rule, e2)
    requires Agree(g, ReadsBranches(g, bs), e1, e2) && ExecList(els, e1) == ExecList(els, e2)
    ensures ExecList(Select(bs, els, e1), e1) == ExecList(Select(bs, els, e2), e2)
    decreases bs, 0
  {
    if bs != [] {
      AgreeLess(g, ReadsBranches(g, bs), Reach(g, bs[0].cond), e1, e2);
      AgreeLess(g, ReadsBranches(g, bs), ReadsList(g, bs[0].body), e1, e2);
      AgreeLess(g, ReadsBranches(g, bs), ReadsBranches(g, bs[1..]), e1, e2);
      SameValue(g, rule, bs[0].cond, e1, e2);
      LeavesDecideList(g, rule, bs[0].body, e1, e2);
      LeavesDecideBranches(g, rule, bs[1..], els, e1, e2);
    }
  }

  /** What the query lists for a statement without event calls is all its writes depend on. */
  lemma SensitivitySuffices(g: Exprs, rule: Rule, s: Stm, sens: Sens, e1: Env, e2: Env)
    requires WellFormed(g) && Inside(g, s) && ElseGiven(s) && Consistent(g, rule, e1) && Consistent(g, rule, e2)
    requires !Hit(sens) && forall x :: x in sens.items <==> ListedFor(g, s, x)
    requires forall i :: i in sens.items ==> e1(i.net) == e2(i.net)
    ensures Exec(s, e1) == Exec(s, e2)
  {
    forall x: Item {
      UsedIsListed(g, s, x);
    }
    forall x ensures x !in Events(g, Reads(g, s)) {
      assert x in Events(g, Reads(g, s)) ==> x in sens.items && x.CallItem?;
    }
    assert Agree(g, Reads(g, s), e1, e2) by {
      forall n | n in Reads(g, s) && n < |g| && g[n].Leaf? ensures e1(n) == e2(n) {
        assert NetItem(n) in Leaves(g, Reads(g, s));
      }
    }
    LeavesDecide(g, rule, s, e1, e2);
  }
}
