/**
  Removing part of a netlist in place (remove_by_mask.cpp, erase_if.h): the boundary is cut by
  several workers, deleted nodes are erased, and what is left is numbered again.
*/
module RemoveByMask {
  import opened Netlists
  import opened BoundaryCut

  /** Removal either runs to its end or stops at a neighbour that is not a net. */
  datatype Outcome = Finished(anyRemoved: bool) | NotANet

  /** The kept drivers of deleted nodes. */
  ghost function BoundarySet(d: Design, mask: seq<bool>): set<Id>
    requires |mask| == |d.nodes|
  {
    set x | x in KeptSet(d, mask) && exists k: nat :: Bounds(d, mask, k, x)
  }

  /** Every kept driver of a deleted node is a net. */
  ghost predicate CutsNetsOnly(d: Design, mask: seq<bool>)
    requires |mask| == |d.nodes|
  {
    forall x :: x in BoundarySet(d, mask) ==> x in d.isNet
  }

  ghost predicate AllKept(mask: seq<bool>) {
    forall i :: 0 <= i < |mask| ==> mask[i]
  }

  // ---------- The columns ----------

  /** The matrix of the collectors, read by column. */
  function Columns(rows: seq<seq<set<Id>>>, threads: nat): (cols: seq<seq<set<Id>>>)
    requires |rows| == threads && forall t :: 0 <= t < threads ==> |rows[t]| == threads
    ensures |cols| == threads
  {
    seq(threads, r requires 0 <= r < threads => Column(rows, r, threads))
  }

  function Column(rows: seq<seq<set<Id>>>, r: nat, threads: nat): (col: seq<set<Id>>)
    requires |rows| == threads && r < threads && forall t :: 0 <= t < threads ==> |rows[t]| == threads
    ensures |col| == threads && forall t :: 0 <= t < threads ==> col[t] == rows[t][r]
  {
    seq(threads, t requires 0 <= t < threads => rows[t][r])
  }

  ghost predicate Collected(d: Design, mask: seq<bool>, threads: nat, rows: seq<seq<set<Id>>>)
    requires |mask| == |d.nodes| && threads > 0
  {
    && |rows| == threads
    && (forall t :: 0 <= t < threads ==> |rows[t]| == threads)
    && forall t, c, x :: 0 <= t < threads && 0 <= c < threads ==>
         (x in rows[t][c] <==> Found(d, mask, t, threads, |d.nodes|, c, x))
  }

  lemma ColumnHolds(d: Design, mask: seq<bool>, threads: nat, rows: seq<seq<set<Id>>>, s: Cut, r: nat, x: Id)
    requires FitsMask(d, mask) && threads > 0 && Collected(d, mask, threads, rows)
    requires s.cols == Columns(rows, threads)
    ensures InColumn(s, r, x) <==> x in BoundarySet(d, mask) && x in d.index && d.index[x] % threads == r
  {
    if r < threads {
      var col := Column(rows, r, threads);
      UnionMeans(col, x);
      if InColumn(s, r, x) {
        var t :| 0 <= t < threads && x in col[t];
        assert Found(d, mask, t, threads, |d.nodes|, r, x);
      }
      if x in BoundarySet(d, mask) && x in d.index && d.index[x] % threads == r {
        var k: nat :| Bounds(d, mask, k, x);
        assert Found(d, mask, k % threads, threads, |d.nodes|, r, x);
        assert x in col[k % threads];
      }
    }
  }

  lemma CutStarts(d: Design, mask: seq<bool>, threads: nat, rows: seq<seq<set<Id>>>, s: Cut)
    requires FitsMask(d, mask) && threads > 0 && Collected(d, mask, threads, rows)
    requires s == Cut(Columns(rows, threads), d.fwd, [])
    ensures CutInv(d.index, d.fwd, BoundarySet(d, mask), KeptSet(d, mask), s)
  {
    forall r, x
      ensures InColumn(s, r, x) <==> x in BoundarySet(d, mask) && x in d.index && d.index[x] % threads == r
    {
      ColumnHolds(d, mask, threads, rows, s, r, x);
    }
    forall x | x in BoundarySet(d, mask) ensures x in d.fwd && x in d.index {
      KeptByIndex(d, mask, x);
    }
    assert s.fwd == Disconnected(d.fwd, (set x | x in s.log), KeptSet(d, mask));
  }

  // ---------- Cutting the boundary is cutting everything ----------

  /** A kept node outside the boundary has no deleted endpoint. */
  lemma OffBoundary(d: Design, mask: seq<bool>, x: Id)
    requires FitsMask(d, mask) && x in d.nodes && x in KeptSet(d, mask) && x !in BoundarySet(d, mask)
    ensures Keep(d.fwd[x], KeptSet(d, mask)) == d.fwd[x]
  {
    forall n | n in d.fwd[x] ensures n in KeptSet(d, mask) {
      assert x in NodeSet(d) && Mentions(d.fwd, x, n);
      assert n in NodeSet(d) && Mentions(d.back, n, x);
      KeptByIndex(d, mask, n);
      assert n !in KeptSet(d, mask) ==> Bounds(d, mask, d.index[n], x);
    }
    KeepAll(d.fwd[x], KeptSet(d, mask));
  }

  /** After the cut every kept node's endpoints are the kept ones. */
  lemma CutIsRemoved(d: Design, mask: seq<bool>)
    requires FitsMask(d, mask)
    ensures forall x :: x in d.nodes && x in KeptSet(d, mask) ==>
      Disconnected(d.fwd, BoundarySet(d, mask), KeptSet(d, mask))[x] == Keep(d.fwd[x], KeptSet(d, mask))
  {
    forall x | x in d.nodes && x in KeptSet(d, mask)
      ensures Disconnected(d.fwd, BoundarySet(d, mask), KeptSet(d, mask))[x] == Keep(d.fwd[x], KeptSet(d, mask))
    {
      if x !in BoundarySet(d, mask) {
        OffBoundary(d, mask, x);
      }
    }
  }

  // ---------- What the collectors report ----------

  /** Some collector meets a node to delete exactly when some flag is down. */
  lemma AnyDeleted(mask: seq<bool>, threads: nat)
    requires threads > 0
    ensures (exists t :: 0 <= t < threads && MetDeleted(mask, t, threads, |mask|)) <==> !AllKept(mask)
  {
    if !AllKept(mask) {
      var k: nat :| k < |mask| && !mask[k];
      assert MetDeleted(mask, k % threads, threads, |mask|);
    }
  }

  lemma NoBoundary(d: Design, mask: seq<bool>)
    requires |mask| == |d.nodes| && AllKept(mask)
    ensures CutsNetsOnly(d, mask)
  {
  }

  /** The columns hold nets only exactly when the whole boundary does. */
  lemma ColumnsOfNets(d: Design, mask: seq<bool>, threads: nat, rows: seq<seq<set<Id>>>, s: Cut)
    requires FitsMask(d, mask) && threads > 0 && Collected(d, mask, threads, rows)
    requires s.cols == Columns(rows, threads)
    ensures (forall r :: 0 <= r < threads ==> Union(s.cols[r]) <= d.isNet) <==> CutsNetsOnly(d, mask)
  {
    forall r, x
      ensures InColumn(s, r, x) <==> x in BoundarySet(d, mask) && x in d.index && d.index[x] % threads == r
    {
      ColumnHolds(d, mask, threads, rows, s, r, x);
    }
    if CutsNetsOnly(d, mask) {
      forall r, x | 0 <= r < threads && x in Union(s.cols[r]) ensures x in d.isNet {
        assert InColumn(s, r, x);
      }
    } else {
      var x :| x in BoundarySet(d, mask) && x !in d.isNet;
      KeptByIndex(d, mask, x);
      assert InColumn(s, d.index[x] % threads, x);
    }
  }

  // ---------- In place ----------

  class Netlist {
    var nodes: seq<Id>
    var nets: seq<Id>
    var index: map<Id, nat>
    var netIndex: map<Id, nat>
    var isNet: set<Id>
    var isOut: set<Id>
    var back: map<Id, seq<Id>>
    var fwd: map<Id, seq<Id>>

    function View(): Design
      reads this
    {
      Design(nodes, nets, index, netIndex, isNet, back, fwd)
    }

    /**
      Removes the nodes whose flag is down, with any number of threads under any schedule of
      the workers.  It stops at a boundary node that is not a net exactly when there is one.
    */
    method Apply(mask: seq<bool>, threads: nat) returns (outcome: Outcome)
      requires FitsMask(View(), mask) && threads > 0
      modifies this
      ensures isNet == old(isNet) && isOut == old(isOut)
      ensures outcome.NotANet? <==> !CutsNetsOnly(old(View()), mask)
      ensures outcome.Finished? ==> (outcome.anyRemoved <==> !AllKept(mask))
      ensures outcome == Finished(false) ==> View() == old(View())
      ensures outcome == Finished(true) ==> View() == Removed(old(View()), KeptSet(old(View()), mask))
    {
      ghost var d := View();
      var rows, anyRemoved := CollectAll(View(), mask, threads);
      if !anyRemoved {
        NoBoundary(d, mask);
        return Finished(false);
      }
      var keep := KeptSet(View(), mask);
      var cut := Cut(Columns(rows, threads), fwd, []);
      CutStarts(d, mask, threads, rows, cut);
      ColumnsOfNets(d, mask, threads, rows, cut);
      if exists r :: 0 <= r < threads && !(Union(cut.cols[r]) <= isNet) {
        return NotANet;
      }
      cut := RunWorkers(d.index, d.fwd, BoundarySet(d, mask), keep, cut);
      CutIsRemoved(d, mask);
      KeptDistinct(d, keep);
      var packed := Pack(View(), keep, cut.fwd);
      Assign(packed);
      outcome := Finished(true);
    }

    method Assign(d: Design)
      modifies this
      ensures View() == d && isOut == old(isOut)
    {
      nodes, nets, index, netIndex := d.nodes, d.nets, d.index, d.netIndex;
      isNet, back, fwd := d.isNet, d.back, d.fwd;
    }
  }

  /** Both lists packed and renumbered; the lists of deleted nodes are gone. */
  method Pack(d: Design, keep: set<Id>, cutFwd: map<Id, seq<Id>>) returns (r: Design)
    requires Distinct(Keep(d.nodes, keep)) && Distinct(Keep(d.nets, keep))
    requires forall n :: n in d.nodes ==> n in d.back && n in d.fwd
    requires forall x :: x in Keep(d.nodes, keep) ==> x in cutFwd && cutFwd[x] == Keep(d.fwd[x], keep)
    ensures r == Removed(d, keep)
  {
    var nodes, index := EraseAndRenumber(d.nodes, keep);
    var nets, netIndex := EraseAndRenumber(d.nets, keep);
    PackedMaps(nodes, keep, d.fwd, cutFwd);
    r := Design(nodes, nets, index, netIndex, d.isNet, Restrict(d.back, nodes), Restrict(cutFwd, nodes));
  }

  /** erase_if_seq. */
  method EraseAndRenumber(input: seq<Id>, keep: set<Id>) returns (vec: seq<Id>, index: map<Id, nat>)
    requires Distinct(Keep(input, keep))
    ensures vec == Keep(input, keep) && index == Numbered(vec)
  {
    vec := EraseIf(input, keep);
    index := Renumber(vec);
  }

  lemma KeptDistinct(d: Design, keep: set<Id>)
    requires Valid(d)
    ensures Distinct(Keep(d.nodes, keep)) && Distinct(Keep(d.nets, keep))
  {
    IndexedDistinct(d.nodes, d.index);
    IndexedDistinct(d.nets, d.netIndex);
    KeepDistinct(d.nodes, keep);
    KeepDistinct(d.nets, keep);
  }

  lemma PackedMaps(s: seq<Id>, keep: set<Id>, fwd: map<Id, seq<Id>>, cutFwd: map<Id, seq<Id>>)
    requires forall x :: x in s ==> x in fwd && x in cutFwd && cutFwd[x] == Keep(fwd[x], keep)
    ensures Restrict(cutFwd, s) == RestrictCut(fwd, s, keep)
  {
  }

  /** All collectors; they share nothing, so their order does not matter. */
  method CollectAll(d: Design, mask: seq<bool>, threads: nat) returns (rows: seq<seq<set<Id>>>, anyRemoved: bool)
    requires FitsMask(d, mask) && threads > 0
    ensures Collected(d, mask, threads, rows)
    ensures anyRemoved <==> !AllKept(mask)
  {
    rows := [];
    anyRemoved := false;
    for t := 0 to threads
      invariant |rows| == t
      invariant forall i :: 0 <= i < t ==> |rows[i]| == threads
      invariant forall i, c, x :: 0 <= i < t && 0 <= c < threads ==>
        (x in rows[i][c] <==> Found(d, mask, i, threads, |d.nodes|, c, x))
      invariant anyRemoved <==> exists i :: 0 <= i < t && MetDeleted(mask, i, threads, |mask|)
    {
      var row, toDelete := CollectRow(d, mask, t, threads);
      rows := rows + [row];
      anyRemoved := anyRemoved || toDelete != [];
    }
    AnyDeleted(mask, threads);
  }

  /** remove_if followed by erase: survivors move down over the removed ones. */
  method EraseIf(input: seq<Id>, keep: set<Id>) returns (vec: seq<Id>)
    ensures vec == Keep(input, keep)
  {
    vec := input;
    var w := 0;
    for r := 0 to |input|
      invariant w <= r && |vec| == |input| && vec[r..] == input[r..] && vec[..w] == Keep(input[..r], keep)
    {
      assert input[..r + 1] == input[..r] + [input[r]];
      KeepConcat(input[..r], [input[r]], keep);
      assert vec[r] == vec[r..][0] == input[r..][0] == input[r];
      assert vec[r + 1..] == vec[r..][1..] == input[r + 1..];
      if vec[r] in keep {
        vec := vec[w := vec[r]];
        w := w + 1;
      }
    }
    assert input[..|input|] == input;
    vec := vec[..w];
  }

  /** The renumbering loop of erase_if_seq. */
  method Renumber(vec: seq<Id>) returns (index: map<Id, nat>)
    requires Distinct(vec)
    ensures index == Numbered(vec)
  {
    index := map[];
    for i := 0 to |vec|
      invariant forall x :: x in index <==> x in vec[..i]
      invariant forall k :: 0 <= k < i ==> index[vec[k]] == k
    {
      index := index[vec[i] := i];
      assert vec[..i + 1] == vec[..i] + [vec[i]];
    }
    assert vec[..|vec|] == vec;
  }

  lemma CutShrinks(boundary: set<Id>, log: seq<Id>, x: Id)
    requires x in boundary && x !in log
    ensures |boundary - (set y | y in log + [x])| < |boundary - (set y | y in log)|
  {
    assert boundary - (set y | y in log + [x]) == (boundary - (set y | y in log)) - {x};
  }

  /** Any worker with nets left goes next, with any net of its first non-empty set. */
  method RunWorkers(ghost index: map<Id, nat>, ghost fwd0: map<Id, seq<Id>>, ghost boundary: set<Id>, keep: set<Id>,
      s: Cut)
    returns (t: Cut)
    requires CutInv(index, fwd0, boundary, keep, s)
    ensures t.fwd == Disconnected(fwd0, boundary, keep)
    ensures (forall x :: x in t.log <==> x in boundary) && Distinct(t.log)
  {
    t := s;
    while exists r :: 0 <= r < |t.cols| && FirstSet(t.cols[r]) != {}
      invariant CutInv(index, fwd0, boundary, keep, t)
      decreases |boundary - (set x | x in t.log)|
    {
      var r: nat :| r < |t.cols| && FirstSet(t.cols[r]) != {};
      var x :| x in FirstSet(t.cols[r]);
      CutProgress(index, fwd0, boundary, keep, t, r, x);
      t := CutStep(keep, t, r, x);
    }
    NoneLeft(t);
    WhenAllCut(index, fwd0, boundary, keep, t);
  }

  lemma CutProgress(index: map<Id, nat>, fwd0: map<Id, seq<Id>>, boundary: set<Id>, keep: set<Id>, s: Cut, r: nat,
      x: Id)
    requires CutInv(index, fwd0, boundary, keep, s) && CanCut(s, r, x)
    ensures x in s.fwd && CutInv(index, fwd0, boundary, keep, CutStep(keep, s, r, x))
    ensures |boundary - (set y | y in CutStep(keep, s, r, x).log)| < |boundary - (set y | y in s.log)|
  {
    WorkersApart(index, fwd0, boundary, keep, s, r, x);
    CutStepKeeps(index, fwd0, boundary, keep, s, r, x);
    CutShrinks(boundary, s.log, x);
  }

  lemma NoneLeft(t: Cut)
    requires forall r :: 0 <= r < |t.cols| ==> FirstSet(t.cols[r]) == {}
    ensures AllCut(t)
  {
    forall r: nat, x ensures !InColumn(t, r, x) {
      if r < |t.cols| {
        FirstSetIn(t.cols[r]);
      }
    }
  }
}
