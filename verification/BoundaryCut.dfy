/**
  The parallel cut between the kept and the deleted part of a netlist (remove_by_mask.cpp).

  Collector `t` looks at the nodes whose index is `t` modulo the thread count and sorts the
  kept neighbours it finds by their own index modulo the thread count.  Disconnecting
  worker `r` then empties column `r` of that matrix, one net at a time, while the other
  workers empty theirs.
*/
module BoundaryCut {
  import opened Netlists

  // ---------- Collecting ----------

  ghost predicate FitsMask(d: Design, mask: seq<bool>) {
    Valid(d) && |mask| == |d.nodes|
  }

  function KeptSet(d: Design, mask: seq<bool>): set<Id>
    requires |mask| == |d.nodes|
  {
    set i | 0 <= i < |d.nodes| && mask[i] :: d.nodes[i]
  }

  lemma KeptByIndex(d: Design, mask: seq<bool>, x: Id)
    requires FitsMask(d, mask) && x in d.nodes
    ensures x in d.index && d.index[x] < |d.nodes| && d.nodes[d.index[x]] == x
    ensures x in KeptSet(d, mask) <==> mask[d.index[x]]
  {
    var k :| 0 <= k < |d.nodes| && d.nodes[k] == x;
    assert d.index[d.nodes[k]] == k;
  }

  /** `x` is kept and drives the node at index `i`, which is deleted. */
  ghost predicate Bounds(d: Design, mask: seq<bool>, i: nat, x: Id)
    requires |mask| == |d.nodes|
  {
    i < |d.nodes| && !mask[i] && Mentions(d.back, d.nodes[i], x) && x in KeptSet(d, mask)
  }

  /** Found by a collector that started at `t` and has strided up to `i`, and put in column `c`. */
  ghost predicate Found(d: Design, mask: seq<bool>, t: nat, threads: nat, i: nat, c: nat, x: Id)
    requires |mask| == |d.nodes| && threads > 0
  {
    && x in d.index && d.index[x] % threads == c
    && exists k: nat :: k < i && k % threads == t && Bounds(d, mask, k, x)
  }

  lemma Multiple(d: int, n: int)
    requires n > 0
    ensures d >= 1 ==> d * n >= n
    ensures d <= -1 ==> d * n <= -n
  {
    if d >= 1 {
      NotNegative(d - 1, n);
      assert d * n == n + (d - 1) * n;
    } else if d <= -1 {
      NotNegative(-d - 1, n);
      assert d * n == -n - (-d - 1) * n;
    }
  }

  lemma NotNegative(a: nat, b: nat)
    ensures a * b >= 0
  {
  }

  /** Two numbers with the same residue less than one stride apart are the same. */
  lemma SameResidue(i: nat, k: nat, threads: nat)
    requires threads > 0 && i <= k < i + threads && k % threads == i % threads
    ensures k == i
  {
    var p, q := i / threads, k / threads;
    assert i == threads * p + i % threads && k == threads * q + k % threads;
    assert k - i == (q - p) * threads;
    Multiple(q - p, threads);
  }

  lemma NextStride(i: nat, threads: nat)
    requires threads > 0
    ensures (i + threads) % threads == i % threads
  {
    var m := i + threads;
    var p, q := i / threads, m / threads;
    assert i == threads * p + i % threads && m == threads * q + m % threads;
    assert (q - p - 1) * threads == i % threads - m % threads;
    Multiple(q - p - 1, threads);
  }

  /** What one more stride finds: the drivers of the node it steps on. */
  lemma FoundStep(d: Design, mask: seq<bool>, t: nat, threads: nat, i: nat, c: nat, x: Id)
    requires |mask| == |d.nodes| && threads > 0 && i % threads == t
    ensures Found(d, mask, t, threads, i + threads, c, x) <==>
            Found(d, mask, t, threads, i, c, x) || (Bounds(d, mask, i, x) && x in d.index && d.index[x] % threads == c)
  {
    if x in d.index && d.index[x] % threads == c {
      if Found(d, mask, t, threads, i + threads, c, x) {
        var k: nat :| k < i + threads && k % threads == t && Bounds(d, mask, k, x);
        if i <= k {
          SameResidue(i, k, threads);
        }
      }
      if Found(d, mask, t, threads, i, c, x) {
        var k: nat :| k < i && k % threads == t && Bounds(d, mask, k, x);
        assert k < i + threads;
      }
    }
  }

  lemma FoundBounded(d: Design, mask: seq<bool>, t: nat, threads: nat, i: nat, c: nat, x: Id)
    requires |mask| == |d.nodes| && threads > 0 && i >= |d.nodes|
    ensures Found(d, mask, t, threads, i, c, x) <==> Found(d, mask, t, threads, |d.nodes|, c, x)
  {
  }

  /** A collector that started at `t` and has strided up to `i` has met a node to delete. */
  ghost predicate MetDeleted(mask: seq<bool>, t: nat, threads: nat, i: nat)
    requires threads > 0
  {
    exists k: nat :: k < i && k < |mask| && k % threads == t && !mask[k]
  }

  lemma MetStep(mask: seq<bool>, t: nat, threads: nat, i: nat)
    requires threads > 0 && i < |mask| && i % threads == t
    ensures MetDeleted(mask, t, threads, i + threads) <==> MetDeleted(mask, t, threads, i) || !mask[i]
  {
    if MetDeleted(mask, t, threads, i + threads) {
      var k: nat :| k < i + threads && k < |mask| && k % threads == t && !mask[k];
      if i <= k {
        SameResidue(i, k, threads);
      }
    }
    if MetDeleted(mask, t, threads, i) {
      var k: nat :| k < i && k < |mask| && k % threads == t && !mask[k];
      assert k < i + threads;
    }
  }

  lemma NothingBefore(d: Design, mask: seq<bool>, t: nat, threads: nat)
    requires |mask| == |d.nodes| && t < threads
    ensures !MetDeleted(mask, t, threads, t)
    ensures forall c, x :: !Found(d, mask, t, threads, t, c, x)
  {
    assert forall k: nat :: k < t ==> k % threads == k;
  }

  /** One collector; the loop strides over the nodes. */
  method CollectRow(d: Design, mask: seq<bool>, t: nat, threads: nat) returns (row: seq<set<Id>>, toDelete: seq<Id>)
    requires FitsMask(d, mask) && t < threads
    ensures |row| == threads
    ensures forall c, x :: 0 <= c < threads ==> (x in row[c] <==> Found(d, mask, t, threads, |d.nodes|, c, x))
    ensures toDelete != [] <==> MetDeleted(mask, t, threads, |d.nodes|)
  {
    row := seq(threads, c => {});
    toDelete := [];
    var i := t;
    NothingBefore(d, mask, t, threads);
    while i < |d.nodes|
      invariant |row| == threads && i % threads == t
      invariant forall c, x :: 0 <= c < threads ==> (x in row[c] <==> Found(d, mask, t, threads, i, c, x))
      invariant toDelete != [] <==> MetDeleted(mask, t, threads, i)
      decreases |d.nodes| - i
    {
      forall c, x
        ensures Found(d, mask, t, threads, i + threads, c, x) <==>
                Found(d, mask, t, threads, i, c, x)
                    || (Bounds(d, mask, i, x) && x in d.index && d.index[x] % threads == c)
      {
        FoundStep(d, mask, t, threads, i, c, x);
      }
      MetStep(mask, t, threads, i);
      if !mask[i] {
        toDelete := toDelete + [d.nodes[i]];
        row := AddDrivers(d, mask, i, threads, row);
      }
      NextStride(i, threads);
      i := i + threads;
    }
    forall c, x ensures Found(d, mask, t, threads, i, c, x) <==> Found(d, mask, t, threads, |d.nodes|, c, x) {
      FoundBounded(d, mask, t, threads, i, c, x);
    }
  }

  /** The walk over the drivers of one deleted node. */
  method AddDrivers(d: Design, mask: seq<bool>, i: nat, threads: nat, row: seq<set<Id>>) returns (row': seq<set<Id>>)
    requires FitsMask(d, mask) && threads > 0 && i < |d.nodes| && !mask[i] && |row| == threads
    ensures |row'| == threads
    ensures forall c, x :: 0 <= c < threads ==>
      (x in row'[c] <==> x in row[c] || (Bounds(d, mask, i, x) && x in d.index && d.index[x] % threads == c))
  {
    row' := row;
    var drivers := d.back[d.nodes[i]];
    for n := 0 to |drivers|
      invariant |row'| == threads
      invariant forall c, x :: 0 <= c < threads ==>
        (x in row'[c] <==>
          (x in row[c] || (x in drivers[..n] && x in KeptSet(d, mask) && x in d.index && d.index[x] % threads == c)))
    {
      var x := drivers[n];
      assert Mentions(d.back, d.nodes[i], x);
      assert x in NodeSet(d);
      KeptByIndex(d, mask, x);
      if mask[d.index[x]] {
        var c := d.index[x] % threads;
        row' := row'[c := row'[c] + {x}];
      }
      assert drivers[..n + 1] == drivers[..n] + [x];
    }
    assert drivers[..|drivers|] == drivers;
  }

  // ---------- Disconnecting ----------

  /** The columns still to be worked off, the endpoint lists, and the nets disconnected so far. */
  datatype Cut = Cut(cols: seq<seq<set<Id>>>, fwd: map<Id, seq<Id>>, log: seq<Id>)

  function Union(sets: seq<set<Id>>): set<Id> {
    if sets == [] then {} else sets[0] + Union(sets[1..])
  }

  /** The first set of a column that still has nets in it. */
  function FirstSet(col: seq<set<Id>>): set<Id> {
    if col == [] then {} else if col[0] != {} then col[0] else FirstSet(col[1..])
  }

  function Without(col: seq<set<Id>>, x: Id): (r: seq<set<Id>>)
    ensures |r| == |col|
  {
    if col == [] then [] else [col[0] - {x}] + Without(col[1..], x)
  }

  /** Worker `r` may disconnect any net of its first non-empty set next. */
  predicate CanCut(s: Cut, r: nat, x: Id) {
    r < |s.cols| && x in FirstSet(s.cols[r])
  }

  /** The net is taken out of the worker's sets, and its endpoints outside `keep` are erased. */
  function CutStep(keep: set<Id>, s: Cut, r: nat, x: Id): Cut
    requires CanCut(s, r, x) && x in s.fwd
  {
    Cut(s.cols[r := Without(s.cols[r], x)], s.fwd[x := Keep(s.fwd[x], keep)], s.log + [x])
  }

  lemma {:induction false} UnionMeans(sets: seq<set<Id>>, x: Id)
    ensures x in Union(sets) <==> exists k :: 0 <= k < |sets| && x in sets[k]
  {
    if sets != [] {
      UnionMeans(sets[1..], x);
      assert forall k :: 0 < k < |sets| ==> sets[k] == sets[1..][k - 1];
      assert forall k :: 0 <= k < |sets| - 1 ==> sets[1..][k] == sets[k + 1];
    }
  }

  lemma {:induction false} FirstSetIn(col: seq<set<Id>>)
    ensures FirstSet(col) <= Union(col) && (FirstSet(col) == {} <==> Union(col) == {})
  {
    if col != [] {
      FirstSetIn(col[1..]);
    }
  }

  lemma {:induction false} WithoutUnion(col: seq<set<Id>>, x: Id)
    ensures Union(Without(col, x)) == Union(col) - {x}
  {
    if col != [] {
      WithoutUnion(col[1..], x);
    }
  }

  /** The sequential cut: every net of `nets` loses the endpoints outside `keep`. */
  function Disconnected(fwd: map<Id, seq<Id>>, nets: set<Id>, keep: set<Id>): map<Id, seq<Id>> {
    map x | x in fwd :: if x in nets then Keep(fwd[x], keep) else fwd[x]
  }

  /** Worker `r` still has `x` to disconnect. */
  predicate InColumn(s: Cut, r: nat, x: Id) {
    r < |s.cols| && x in Union(s.cols[r])
  }

  /**
    Each net to be cut is still in exactly one worker's column, chosen by its index, or has
    been cut once; the endpoint lists are those of a sequential cut of the nets in the log.
  */
  ghost predicate CutInv(index: map<Id, nat>, fwd0: map<Id, seq<Id>>, boundary: set<Id>, keep: set<Id>, s: Cut) {
    && s.cols != [] && (forall x :: x in boundary ==> x in fwd0 && x in index)
    && (forall r, x :: InColumn(s, r, x) ==> x in boundary && x !in s.log && index[x] % |s.cols| == r)
    && (forall x :: x in s.log ==> x in boundary)
    && (forall x :: x in boundary && x !in s.log ==> InColumn(s, index[x] % |s.cols|, x))
    && Distinct(s.log)
    && s.fwd == Disconnected(fwd0, (set x | x in s.log), keep)
  }

  lemma StepColumns(keep: set<Id>, s: Cut, r: nat, x: Id, q: nat, y: Id)
    requires CanCut(s, r, x) && x in s.fwd
    ensures InColumn(CutStep(keep, s, r, x), q, y) <==> InColumn(s, q, y) && !(q == r && y == x)
  {
    WithoutUnion(s.cols[r], x);
  }

  lemma StepFwd(fwd0: map<Id, seq<Id>>, log: seq<Id>, keep: set<Id>, x: Id)
    requires x in fwd0 && x !in log
    ensures var fwd := Disconnected(fwd0, (set y | y in log), keep);
      fwd[x := Keep(fwd[x], keep)] == Disconnected(fwd0, (set y | y in log + [x]), keep)
  {
    assert forall y :: y in log + [x] <==> y in log || y == x;
  }

  /** Whichever worker goes next, the invariant holds again. */
  lemma CutStepKeeps(index: map<Id, nat>, fwd0: map<Id, seq<Id>>, boundary: set<Id>, keep: set<Id>, s: Cut, r: nat,
      x: Id)
    requires CutInv(index, fwd0, boundary, keep, s) && CanCut(s, r, x)
    ensures x in s.fwd && CutInv(index, fwd0, boundary, keep, CutStep(keep, s, r, x))
  {
    FirstSetIn(s.cols[r]);
    assert InColumn(s, r, x);
    var t := CutStep(keep, s, r, x);
    assert forall y :: y in t.log <==> y in s.log || y == x;
    forall q, y ensures InColumn(t, q, y) <==> InColumn(s, q, y) && !(q == r && y == x) {
      StepColumns(keep, s, r, x, q, y);
    }
    StepFwd(fwd0, s.log, keep, x);
  }

  /** A run of the workers: who goes, and with which net. */
  ghost predicate CutRun(keep: set<Id>, s: Cut, steps: seq<(nat, Id)>, t: Cut)
    decreases |steps|
  {
    if steps == [] then s == t
    else
      && CanCut(s, steps[0].0, steps[0].1) && steps[0].1 in s.fwd
      && CutRun(keep, CutStep(keep, s, steps[0].0, steps[0].1), steps[1..], t)
  }

  ghost predicate AllCut(s: Cut) {
    forall r, x :: !InColumn(s, r, x)
  }

  lemma {:induction false} CutRunKeeps(index: map<Id, nat>, fwd0: map<Id, seq<Id>>, boundary: set<Id>, keep: set<Id>,
                                       s: Cut, steps: seq<(nat, Id)>, t: Cut)
    requires CutInv(index, fwd0, boundary, keep, s) && CutRun(keep, s, steps, t)
    ensures CutInv(index, fwd0, boundary, keep, t) && |t.log| == |s.log| + |steps|
    decreases |steps|
  {
    if steps != [] {
      CutStepKeeps(index, fwd0, boundary, keep, s, steps[0].0, steps[0].1);
      CutRunKeeps(index, fwd0, boundary, keep, CutStep(keep, s, steps[0].0, steps[0].1), steps[1..], t);
    }
  }

  /**
    For every number of workers and every interleaving: when all columns are empty, each net
    of the boundary has been disconnected exactly once and the endpoint lists are those of
    the sequential cut.
  */
  lemma CutComplete(index: map<Id, nat>, fwd0: map<Id, seq<Id>>, boundary: set<Id>, keep: set<Id>,
                    s: Cut, steps: seq<(nat, Id)>, t: Cut)
    requires CutInv(index, fwd0, boundary, keep, s) && CutRun(keep, s, steps, t) && AllCut(t)
    ensures t.fwd == Disconnected(fwd0, boundary, keep)
    ensures (forall x :: x in t.log <==> x in boundary) && Distinct(t.log)
  {
    CutRunKeeps(index, fwd0, boundary, keep, s, steps, t);
    WhenAllCut(index, fwd0, boundary, keep, t);
  }

  lemma WhenAllCut(index: map<Id, nat>, fwd0: map<Id, seq<Id>>, boundary: set<Id>, keep: set<Id>, t: Cut)
    requires CutInv(index, fwd0, boundary, keep, t) && AllCut(t)
    ensures t.fwd == Disconnected(fwd0, boundary, keep)
    ensures forall x :: x in t.log <==> x in boundary
  {
    assert (set x | x in t.log) == boundary;
  }

  /** Two workers never touch the same net: each step is on a net whose index is the worker's number. */
  lemma WorkersApart(index: map<Id, nat>, fwd0: map<Id, seq<Id>>, boundary: set<Id>, keep: set<Id>, s: Cut, r: nat,
      x: Id)
    requires CutInv(index, fwd0, boundary, keep, s) && CanCut(s, r, x)
    ensures x in boundary && index[x] % |s.cols| == r && x !in s.log
  {
    FirstSetIn(s.cols[r]);
    assert InColumn(s, r, x);
  }
}
