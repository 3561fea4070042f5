/**
  The netlist as an index-addressed graph (netlist.cpp) and what is left of it when the
  nodes outside a set are removed (remove_by_mask.cpp, erase_if.h).

  An `Id` stands for the address of a node.  `back` is what `backward` walks (drivers of a
  net, inputs of an operation), `fwd` what `forward` walks (endpoints, outputs).
*/
module Netlists {
  import opened Lists

  type Id = nat

  datatype Design = Design(
    nodes: seq<Id>, nets: seq<Id>, index: map<Id, nat>, netIndex: map<Id, nat>,
    isNet: set<Id>, back: map<Id, seq<Id>>, fwd: map<Id, seq<Id>>)

  ghost predicate Distinct(s: seq<Id>) {
    forall i, j :: 0 <= i < j < |s| ==> s[i] != s[j]
  }

  /** Every entry of a node list knows its own position. */
  ghost predicate Indexed(s: seq<Id>, index: map<Id, nat>) {
    forall i :: 0 <= i < |s| ==> s[i] in index && index[s[i]] == i
  }

  function NodeSet(d: Design): set<Id> {
    set n | n in d.nodes
  }

  /** The list of `n` mentions `m`. */
  ghost predicate Mentions(l: map<Id, seq<Id>>, n: Id, m: Id) {
    n in l && m in l[n]
  }

  /** Neighbours are nodes, and each has the other in its list. */
  ghost predicate Symmetric(nodes: set<Id>, back: map<Id, seq<Id>>, fwd: map<Id, seq<Id>>) {
    && (forall n, m :: n in nodes && Mentions(back, n, m) ==> m in nodes && Mentions(fwd, m, n))
    && (forall n, m :: n in nodes && Mentions(fwd, n, m) ==> m in nodes && Mentions(back, m, n))
  }

  /** The index invariant that integrty_assert checks, and edges recorded at both ends. */
  ghost predicate Valid(d: Design) {
    && Indexed(d.nodes, d.index) && Indexed(d.nets, d.netIndex)
    && (forall n :: n in d.nets <==> n in d.nodes && n in d.isNet)
    && (forall n :: n in d.nodes ==> n in d.back && n in d.fwd)
    && Symmetric(NodeSet(d), d.back, d.fwd)
  }

  lemma IndexedDistinct(s: seq<Id>, index: map<Id, nat>)
    requires Indexed(s, index)
    ensures Distinct(s)
  {
  }

  // ---------- Keeping part of a list, and renumbering it ----------

  function Keep(s: seq<Id>, keep: set<Id>): (r: seq<Id>)
    ensures |r| <= |s|
    ensures forall x :: x in r <==> x in s && x in keep
  {
    if s == [] then [] else (if s[0] in keep then [s[0]] else []) + Keep(s[1..], keep)
  }

  lemma {:induction false} KeepConcat(a: seq<Id>, b: seq<Id>, keep: set<Id>)
    ensures Keep(a + b, keep) == Keep(a, keep) + Keep(b, keep)
  {
    if a == [] {
      assert a + b == b;
    } else {
      assert (a + b)[1..] == a[1..] + b;
      KeepConcat(a[1..], b, keep);
    }
  }

  lemma {:induction false} KeepDistinct(s: seq<Id>, keep: set<Id>)
    requires Distinct(s)
    ensures Distinct(Keep(s, keep))
  {
    if s != [] {
      KeepDistinct(s[1..], keep);
    }
  }

  lemma {:induction false} KeepAll(s: seq<Id>, keep: set<Id>)
    requires forall x :: x in s ==> x in keep
    ensures Keep(s, keep) == s
  {
    if s != [] {
      KeepAll(s[1..], keep);
    }
  }

  lemma {:induction false} KeepFilters(s: seq<Id>, keep: set<Id>, kept: Id -> bool)
    requires forall x :: kept(x) <==> x in keep
    ensures Keep(s, keep) == Filtered(s, kept)
  {
    if s != [] {
      KeepFilters(s[1..], keep, kept);
    }
  }

  /** Survivors keep their order: wherever two of them stand, they stood in that order before. */
  lemma KeepOrder(s: seq<Id>, keep: set<Id>, i: nat, j: nat)
    requires i < j < |Keep(s, keep)|
    ensures exists p, q :: 0 <= p < q < |s| && s[p] == Keep(s, keep)[i] && s[q] == Keep(s, keep)[j]
  {
    var kept := (x: Id) => x in keep;
    KeepFilters(s, keep, kept);
    FilteredOrder(s, kept, i, j);
  }

  function Numbered(s: seq<Id>): (m: map<Id, nat>)
    ensures forall x :: x in m <==> x in s
    ensures Distinct(s) ==> Indexed(s, m)
  {
    map x | x in s :: IndexOf(s, x)
  }

  function IndexOf(s: seq<Id>, x: Id): (i: nat)
    requires x in s
    ensures i < |s| && s[i] == x
    ensures forall k :: 0 <= k < i ==> s[k] != x
  {
    if s[0] == x then 0 else 1 + IndexOf(s[1..], x)
  }

  // ---------- Removal ----------

  function Restrict(m: map<Id, seq<Id>>, s: seq<Id>): map<Id, seq<Id>>
    requires forall n :: n in s ==> n in m
  {
    map n | n in s :: m[n]
  }

  function RestrictCut(m: map<Id, seq<Id>>, s: seq<Id>, keep: set<Id>): map<Id, seq<Id>>
    requires forall n :: n in s ==> n in m
  {
    map n | n in s :: Keep(m[n], keep)
  }

  /** What removal leaves: lists compacted and renumbered, endpoints outside `keep` disconnected. */
  function Removed(d: Design, keep: set<Id>): Design
    requires forall n :: n in d.nodes && n in keep ==> n in d.back && n in d.fwd
  {
    var nodes, nets := Keep(d.nodes, keep), Keep(d.nets, keep);
    Design(nodes, nets, Numbered(nodes), Numbered(nets), d.isNet,
           Restrict(d.back, nodes), RestrictCut(d.fwd, nodes, keep))
  }

  /** Whatever drives a kept node is kept. */
  ghost predicate BackwardClosed(d: Design, keep: set<Id>) {
    forall n, m :: n in NodeSet(d) && n in keep && Mentions(d.back, n, m) ==> m in keep
  }

  lemma RemovedIndexed(d: Design, keep: set<Id>)
    requires Valid(d)
    ensures var r := Removed(d, keep); Indexed(r.nodes, r.index) && Indexed(r.nets, r.netIndex)
  {
    IndexedDistinct(d.nodes, d.index);
    IndexedDistinct(d.nets, d.netIndex);
    KeepDistinct(d.nodes, keep);
    KeepDistinct(d.nets, keep);
  }

  /** The edges that are left, one at a time. */
  lemma RemovedMentions(d: Design, keep: set<Id>, n: Id, m: Id)
    requires Valid(d)
    ensures var r := Removed(d, keep);
      && (n in NodeSet(r) <==> n in NodeSet(d) && n in keep)
      && (n in NodeSet(r) ==> (Mentions(r.back, n, m) <==> Mentions(d.back, n, m)))
      && (n in NodeSet(r) ==> (Mentions(r.fwd, n, m) <==> Mentions(d.fwd, n, m) && m in keep))
  {
  }

  lemma RemovedSymmetric(d: Design, keep: set<Id>)
    requires Valid(d)
    ensures Symmetric(NodeSet(Removed(d, keep)), Removed(d, keep).back, Removed(d, keep).fwd)
        <==> BackwardClosed(d, keep)
  {
    var r := Removed(d, keep);
    forall n, m {
      RemovedMentions(d, keep, n, m);
    }
    if BackwardClosed(d, keep) {
      EdgesLeft(NodeSet(d), d.back, d.fwd, keep, NodeSet(r), r.back, r.fwd);
    } else {
      var n, m :| n in NodeSet(d) && n in keep && Mentions(d.back, n, m) && m !in keep;
      assert n in NodeSet(r) && Mentions(r.back, n, m) && m !in NodeSet(r);
    }
  }

  lemma EdgesLeft(nodes: set<Id>, back: map<Id, seq<Id>>, fwd: map<Id, seq<Id>>, keep: set<Id>,
                  nodes': set<Id>, back': map<Id, seq<Id>>, fwd': map<Id, seq<Id>>)
    requires Symmetric(nodes, back, fwd) && nodes' == nodes * keep
    requires forall n, m :: n in nodes && n in keep && Mentions(back, n, m) ==> m in keep
    requires forall n, m :: n in nodes' ==> (Mentions(back', n, m) <==> Mentions(back, n, m))
    requires forall n, m :: n in nodes' ==> (Mentions(fwd', n, m) <==> Mentions(fwd, n, m) && m in keep)
    ensures Symmetric(nodes', back', fwd')
  {
  }

  /**
    After removal every node sits at its index, edges are recorded at both ends and no list
    mentions a deleted node, exactly when the kept set is closed under `backward`.
  */
  lemma RemovedValid(d: Design, keep: set<Id>)
    requires Valid(d)
    ensures Valid(Removed(d, keep)) <==> BackwardClosed(d, keep)
  {
    RemovedIndexed(d, keep);
    RemovedSymmetric(d, keep);
  }
}
