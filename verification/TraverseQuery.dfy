/**
  The traversal as its callers see it: the batches of `parallel_for` (thread_pool.cpp), the
  pool in which any thread that can moves next, and the flags that outlive a traversal
  (query_traverse.cpp).
*/
module TraverseQuery {
  import opened Traverse
  import opened TraverseRuns
  import opened TraverseThreads

  /** Batches of indexes as `[from, to)`.  The step divides only `first`, so there is never a second batch. */
  method ParallelFor(first: int, last: int, poolSize: nat) returns (batches: seq<(int, int)>)
    requires 0 <= first <= last && poolSize > 0
    ensures batches == if first == last then [] else [(first, last)]
  {
    batches := [];
    if first == last {
      return;
    }
    StepSpansAll(first, poolSize);
    var step := last - first / poolSize;
    if step == 0 {
      step := 1;
    }
    var start := first;
    while start < last
      invariant (start == first && batches == []) || (start >= last && batches == [(first, last)])
      decreases last - start
    {
      batches := batches + [(start, if last < start + step then last else start + step)];
      start := start + step;
    }
  }

  lemma AtLeast(q: nat, p: nat)
    requires p >= 1
    ensures q * p >= q
  {
  }

  lemma StepSpansAll(first: nat, poolSize: nat)
    requires poolSize > 0
    ensures 0 <= first / poolSize <= first
  {
    AtLeast(first / poolSize, poolSize);
    assert poolSize * (first / poolSize) + first % poolSize == first;
  }

  class QueryTraverse {
    const visited: array<bool>
    var visitedClean: bool

    /** Flags called clean are all down. */
    ghost predicate Valid()
      reads this, visited
    {
      visitedClean ==> forall n :: 0 <= n < visited.Length ==> !visited[n]
    }

    constructor (maxItems: nat)
      ensures Valid() && fresh(visited) && visited.Length == maxItems && !visitedClean
    {
      visited := new bool[maxItems];
      visitedClean := false;
    }

    method CleanVisitFlags()
      modifies this, visited
      ensures Valid() && visitedClean
    {
      var batches := ParallelFor(0, visited.Length, 1);
      for b := 0 to |batches|
        invariant b == 1 ==> forall n :: 0 <= n < visited.Length ==> !visited[n]
      {
        for n := batches[b].0 to batches[b].1
          invariant forall k :: 0 <= k < n ==> !visited[k]
        {
          visited[n] := false;
        }
      }
      visitedClean := true;
    }

    /**
      Calls the callback on every node reachable from the starts, each once, and leaves exactly
      their flags up.  Without starts nothing happens: the flags stay as they were.
    */
    method Traverse(graph: Graph, limit: nat, starts: seq<Node>, poolSize: nat) returns (log: seq<Node>)
      requires poolSize > 0 && Valid() && WellFormed(graph) && visited.Length == |graph|
      requires forall n :: n in starts ==> n < |graph|
      modifies this, visited
      ensures Valid()
      ensures starts == [] ==> log == [] && visited[..] == old(visited[..]) && visitedClean == old(visitedClean)
      ensures starts != [] ==> !visitedClean
      ensures starts != [] ==> forall n :: 0 <= n < |graph| ==> (visited[n] <==> Reachable(graph, starts, n))
      ensures forall n :: n in log <==> Reachable(graph, starts, n)
      ensures forall i, k :: 0 <= i < k < |log| ==> log[i] != log[k]
    {
      if starts == [] {
        return [];
      }
      if !visitedClean {
        CleanVisitFlags();
      }
      visitedClean := false;
      var t := RunJobs(graph, limit, starts, poolSize);
      log := t.log;
      for n := 0 to visited.Length
        invariant Valid() && !visitedClean
        invariant forall k :: 0 <= k < n ==> (visited[k] <==> k in t.visited)
      {
        visited[n] := n in t.visited;
      }
    }
  }

  /** A pool of threads of which always some one that can moves, until the outer wait returns. */
  method RunJobs(graph: Graph, limit: nat, starts: seq<Node>, poolSize: nat) returns (t: State)
    requires WellFormed(graph) && starts != [] && forall n :: n in starts ==> n < |graph|
    requires poolSize > 0
    ensures t.completed == t.dispatched && multiset(t.log) == multiset(t.visited)
    ensures forall n :: n in t.visited <==> Reachable(graph, starts, n)
    ensures forall n :: n in t.log <==> Reachable(graph, starts, n)
    ensures forall i, k :: 0 <= i < k < |t.log| ==> t.log[i] != t.log[k]
  {
    var ranges := ParallelFor(0, |starts|, poolSize);
    var batches := [starts[ranges[0].0..ranges[0].1]];
    assert batches[0] == starts;
    var pool := Parked(batches, poolSize + 1);
    ParkedHolds(graph, starts, batches, poolSize + 1);
    while pool.state.completed != pool.state.dispatched
      invariant PoolInv(graph, pool) && FreshQueue(pool) && Cover(graph, starts, pool.state)
      decreases PoolMeasure(graph, pool)
    {
      ghost var some := SomeThreadMoves(graph, pool);
      var m: Move :| CanMove(pool, m);
      MoveKeeps(graph, limit, pool, m);
      MoveCovers(graph, limit, starts, pool, m);
      MoveDrops(graph, limit, pool, m);
      PoolMeasureNotNegative(graph, pool);
      pool := Moved(graph, limit, pool, m);
    }
    t := pool.state;
    WhenDone(graph, starts, t);
    LogDistinct(graph, t);
    forall n | n in t.visited ensures n in t.log {
      assert n in multiset(t.log);
    }
  }
}
