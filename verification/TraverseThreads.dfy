/**
  The traversal on a pool of threads (thread_pool.cpp).  A thread runs one job at a time; a job
  that waits for its task group polls, and what it polls runs on top of it on the same thread.
  Only the top of a thread can step, so a buried job cannot go on even when its counters agree.
*/
module TraverseThreads {
  import opened Traverse
  import opened TraverseRuns

  /**
    Every thread with its stack of jobs, and the jobs in the order in which they were taken off
    the queue.  Thread 0 is the caller, which polls in the outer wait.
  */
  datatype Pool = Pool(state: State, stacks: seq<seq<nat>>, started: seq<nat>)

  /** A thread takes a queued job, or the job on top of it goes on. */
  datatype Move = Take(thread: nat, job: nat) | Go(thread: nat)

  /** The job is in the wait of its task group, where it polls. */
  predicate Waiting(s: State, j: nat) {
    j < |s.jobs| && s.jobs[j].act.Active? && s.jobs[j].act.pending == [] && s.jobs[j].act.stack == []
  }

  /** Posted and not taken by a thread yet. */
  predicate Queued(p: Pool, j: nat) {
    j < |p.state.jobs| && j !in p.started
  }

  function Top(p: Pool, t: nat): nat
    requires t < |p.stacks| && p.stacks[t] != []
  {
    p.stacks[t][|p.stacks[t]| - 1]
  }

  /** A thread looks for jobs when it has none, or when the one on top of it polls; the caller only during its wait. */
  predicate Polls(p: Pool, t: nat)
    requires t < |p.stacks|
  {
    if p.stacks[t] == [] then t == 0 ==> p.state.completed != p.state.dispatched
    else Waiting(p.state, Top(p, t))
  }

  predicate CanMove(p: Pool, m: Move) {
    && m.thread < |p.stacks|
    && match m
       case Take(t, j) => Polls(p, t) && Queued(p, j)
       case Go(t) => p.stacks[t] != [] && Enabled(p.state, Top(p, t))
  }

  function Moved(graph: Graph, limit: nat, p: Pool, m: Move): Pool
    requires CanMove(p, m) && Inv(graph, p.state)
  {
    match m
    case Take(t, j) => p.(stacks := p.stacks[t := p.stacks[t] + [j]], started := p.started + [j])
    case Go(t) =>
      var j := Top(p, t);
      var s := Step(graph, limit, p.state, j);
      var left := if j < |s.jobs| && s.jobs[j].finished then p.stacks[t][..|p.stacks[t]| - 1] else p.stacks[t];
      p.(state := s, stacks := p.stacks[t := left])
  }

  /** All jobs of the outer group are queued and no thread has one. */
  function Parked(batches: seq<seq<Node>>, threads: nat): Pool {
    Pool(Initial(batches), seq(threads, _ => []), [])
  }

  // ---------- Invariant ----------

  /** How many jobs had been taken when this one was. */
  function Since(started: seq<nat>, j: nat): (r: nat)
    requires j in started
    ensures r < |started| && started[r] == j
  {
    if started[0] == j then 0 else 1 + Since(started[1..], j)
  }

  predicate Busy(p: Pool, j: nat) {
    j in p.started && j < |p.state.jobs| && !p.state.jobs[j].finished
  }

  predicate OnThread(p: Pool, t: nat, j: nat) {
    t < |p.stacks| && j in p.stacks[t]
  }

  /** The jobs on the threads are those taken and not finished, each on one thread. */
  ghost predicate Placed(p: Pool) {
    && (forall j: nat :: j in p.started ==> j < |p.state.jobs|)
    && (forall t: nat, j: nat :: OnThread(p, t, j) ==> Busy(p, j))
    && (forall j: nat :: Busy(p, j) ==> exists t: nat :: OnThread(p, t, j))
    && forall t: nat, u: nat, j: nat :: OnThread(p, t, j) && OnThread(p, u, j) ==> t == u
  }

  /** On a thread, jobs lie in the order in which they were taken, and all but the top wait. */
  ghost predicate Stacked(p: Pool, t: nat)
    requires Placed(p) && t < |p.stacks|
  {
    && (forall i, k :: 0 <= i < k < |p.stacks[t]| ==> Earlier(p, p.stacks[t][i], p.stacks[t][k]))
    && forall i :: 0 <= i < |p.stacks[t]| - 1 ==> Waiting(p.state, p.stacks[t][i])
  }

  predicate Earlier(p: Pool, i: nat, j: nat) {
    i in p.started && j in p.started && Since(p.started, i) < Since(p.started, j)
  }

  /** Jobs are posted by jobs that have been taken, before they are taken themselves. */
  ghost predicate ParentsFirst(p: Pool) {
    forall j: nat :: j < |p.state.jobs| && p.state.jobs[j].owner.Child? ==>
      && p.state.jobs[j].owner.job in p.started
      && (j in p.started ==> Earlier(p, p.state.jobs[j].owner.job, j))
  }

  ghost predicate PoolInv(graph: Graph, p: Pool) {
    && Inv(graph, p.state) && p.stacks != [] && Placed(p) && ParentsFirst(p)
    && forall t: nat :: t < |p.stacks| ==> Stacked(p, t)
  }

  lemma ParkedHolds(graph: Graph, starts: seq<Node>, batches: seq<seq<Node>>, threads: nat)
    requires WellFormed(graph) && StartsCovered(graph, starts, batches) && threads > 0
    ensures PoolInv(graph, Parked(batches, threads)) && Cover(graph, starts, Parked(batches, threads).state)
  {
    InitialHolds(graph, starts, batches);
  }

  lemma {:induction false} SinceAppend(started: seq<nat>, j: nat, i: nat)
    requires i in started
    ensures i in started + [j] && Since(started + [j], i) == Since(started, i)
  {
    if started[0] != i {
      assert (started + [j])[1..] == started[1..] + [j];
      SinceAppend(started[1..], j, i);
    }
  }

  lemma {:induction false} SinceLast(started: seq<nat>, j: nat)
    requires j !in started
    ensures Since(started + [j], j) == |started|
  {
    if started != [] {
      assert (started + [j])[1..] == started[1..] + [j];
      SinceLast(started[1..], j);
    }
  }

  lemma EarlierAppend(p: Pool, q: Pool, j: nat)
    requires j !in p.started && q.started == p.started + [j]
    ensures forall i: nat, k: nat :: Earlier(p, i, k) ==> Earlier(q, i, k)
    ensures forall i: nat :: i in p.started ==> Earlier(q, i, j)
  {
    forall i: nat, k: nat | Earlier(p, i, k) ensures Earlier(q, i, k) {
      SinceAppend(p.started, j, i);
      SinceAppend(p.started, j, k);
    }
    forall i: nat | i in p.started ensures Earlier(q, i, j) {
      SinceAppend(p.started, j, i);
      SinceLast(p.started, j);
    }
  }

  // ---------- Taking a job ----------

  lemma TakePlaces(p: Pool, t: nat, j: nat, q: Pool)
    requires Placed(p) && t < |p.stacks| && Queued(p, j) && !p.state.jobs[j].finished
    requires q == p.(stacks := p.stacks[t := p.stacks[t] + [j]], started := p.started + [j])
    ensures Placed(q)
  {
    forall u: nat, i: nat ensures OnThread(q, u, i) <==> OnThread(p, u, i) || (u == t && i == j) {
    }
    forall i: nat | Busy(q, i) ensures exists u: nat :: OnThread(q, u, i) {
      if i == j {
        assert OnThread(q, t, j);
      } else {
        assert Busy(p, i);
        var u: nat :| OnThread(p, u, i);
        assert OnThread(q, u, i);
      }
    }
  }

  /** A job that has not been taken cannot have finished. */
  ghost predicate FreshQueue(p: Pool) {
    forall j: nat :: Queued(p, j) ==> !p.state.jobs[j].finished
  }

  lemma TakeKeeps(graph: Graph, limit: nat, p: Pool, t: nat, j: nat)
    requires PoolInv(graph, p) && FreshQueue(p) && CanMove(p, Take(t, j))
    ensures PoolInv(graph, Moved(graph, limit, p, Take(t, j))) && FreshQueue(Moved(graph, limit, p, Take(t, j)))
  {
    var q := Moved(graph, limit, p, Take(t, j));
    TakePlaces(p, t, j, q);
    EarlierAppend(p, q, j);
    forall u: nat | u < |q.stacks| ensures Stacked(q, u) {
      assert Stacked(p, u);
      if u == t {
        TakeStacks(p, t, j, q);
      }
    }
  }

  lemma TakeStacks(p: Pool, t: nat, j: nat, q: Pool)
    requires Placed(p) && Placed(q) && t < |p.stacks| && Stacked(p, t) && Polls(p, t) && j !in p.started
    requires q == p.(stacks := p.stacks[t := p.stacks[t] + [j]], started := p.started + [j])
    ensures Stacked(q, t)
  {
    EarlierAppend(p, q, j);
    var was, now := p.stacks[t], q.stacks[t];
    forall i, k | 0 <= i < k < |now| ensures Earlier(q, now[i], now[k]) {
      assert OnThread(p, t, was[i]);
      if k < |was| {
        assert Earlier(p, was[i], was[k]);
      }
    }
  }

  // ---------- A job going on ----------

  /** What a step leaves as it was in every job but the one that steps: owner, end, and where it waits. */
  ghost predicate Elsewhere(s: State, t: State, j: nat) {
    && |s.jobs| <= |t.jobs| <= |s.jobs| + 1
    && (forall i :: 0 <= i < |s.jobs| ==> t.jobs[i].owner == s.jobs[i].owner)
    && (forall i :: 0 <= i < |s.jobs| && i != j ==> t.jobs[i].finished == s.jobs[i].finished)
    && (forall i: nat :: i < |s.jobs| && i != j && Waiting(s, i) ==> Waiting(t, i))
    && forall i :: |s.jobs| <= i < |t.jobs| ==> t.jobs[i].owner == Child(j) && !t.jobs[i].finished
  }

  /** Only the activation, the starts or the end of one job changed. */
  lemma OnlyThis(s: State, t: State, j: nat)
    requires j < |s.jobs| == |t.jobs| && t.jobs[j].owner == s.jobs[j].owner
    requires forall i :: 0 <= i < |s.jobs| && i != j ==> t.jobs[i] == s.jobs[i]
    ensures Elsewhere(s, t, j)
  {
  }

  lemma SelectElsewhere(limit: nat, s: State, j: nat)
    requires j < |s.jobs| && s.jobs[j].act.Active? && s.jobs[j].act.pending != []
    ensures Elsewhere(s, Select(limit, s, j), j)
  {
  }

  lemma FinishElsewhere(s: State, j: nat)
    requires j < |s.jobs|
    requires s.jobs[j].owner.Child? ==>
      s.jobs[j].owner.job < |s.jobs| && s.jobs[j].owner.job != j && s.jobs[s.jobs[j].owner.job].act.Active?
    ensures Elsewhere(s, Finish(s, j), j)
  {
  }

  lemma StepElsewhere(graph: Graph, limit: nat, s: State, j: nat)
    requires Inv(graph, s) && Enabled(s, j)
    ensures Elsewhere(s, Step(graph, limit, s, j), j)
  {
    var job := s.jobs[j];
    assert JobInv(graph, s.jobs, j);
    if job.act.Active? && job.act.pending != [] {
      SelectElsewhere(limit, s, j);
    } else if job.act.Active? || job.todo != [] {
      OnlyThis(s, Step(graph, limit, s, j), j);
    } else {
      assert job.owner.Child? ==> JobInv(graph, s.jobs, job.owner.job);
      OwnerActive(s.jobs, j);
      FinishElsewhere(s, j);
    }
  }

  /** A job is on its thread once. */
  lemma BelowTop(p: Pool, t: nat)
    requires Placed(p) && t < |p.stacks| && p.stacks[t] != [] && Stacked(p, t)
    ensures forall k :: 0 <= k < |p.stacks[t]| - 1 ==> p.stacks[t][k] != Top(p, t)
  {
    forall k | 0 <= k < |p.stacks[t]| - 1 ensures p.stacks[t][k] != Top(p, t) {
      assert Earlier(p, p.stacks[t][k], p.stacks[t][|p.stacks[t]| - 1]);
    }
  }

  /** The stacks after the top of one thread went on, and was taken off if it has finished. */
  predicate AfterGo(p: Pool, t: nat, q: Pool, finished: bool)
    requires t < |p.stacks| && p.stacks[t] != []
  {
    q.stacks == p.stacks[t := if finished then p.stacks[t][..|p.stacks[t]| - 1] else p.stacks[t]]
  }

  lemma OnThreadsAfter(p: Pool, t: nat, q: Pool, finished: bool)
    requires Placed(p) && t < |p.stacks| && p.stacks[t] != [] && Stacked(p, t) && AfterGo(p, t, q, finished)
    ensures forall u: nat, i: nat :: OnThread(q, u, i) <==> OnThread(p, u, i) && (finished ==> i != Top(p, t))
  {
    var j := Top(p, t);
    var rest := p.stacks[t][..|p.stacks[t]| - 1];
    BelowTop(p, t);
    assert p.stacks[t] == rest + [j];
    assert forall i: nat :: i in p.stacks[t] <==> i in rest || i == j;
    assert j !in rest;
    assert OnThread(p, t, j);
    forall u: nat, i: nat ensures OnThread(q, u, i) <==> OnThread(p, u, i) && (finished ==> i != j) {
      assert OnThread(p, u, j) ==> u == t;
    }
  }

  lemma GoPlaces(p: Pool, t: nat, j: nat, s: State, q: Pool)
    requires Placed(p) && t < |p.stacks| && p.stacks[t] != [] && j == Top(p, t) && Elsewhere(p.state, s, j)
    requires j < |p.state.jobs| && Stacked(p, t)
    requires q.state == s && q.started == p.started && AfterGo(p, t, q, s.jobs[j].finished)
    ensures Placed(q)
  {
    OnThreadsAfter(p, t, q, s.jobs[j].finished);
    assert OnThread(p, t, j);
    forall i: nat | Busy(q, i) ensures exists u: nat :: OnThread(q, u, i) {
      assert Busy(p, i);
      var u: nat :| OnThread(p, u, i);
      assert OnThread(q, u, i);
    }
  }

  lemma GoStacks(p: Pool, t: nat, u: nat, j: nat, s: State, q: Pool)
    requires Placed(p) && t < |p.stacks| && p.stacks[t] != [] && j == Top(p, t) && Elsewhere(p.state, s, j)
    requires q.state == s && q.started == p.started && Placed(q) && u < |p.stacks| == |q.stacks| && Stacked(p, u)
    requires q.stacks[u] == p.stacks[u] || (u == t && q.stacks[u] == p.stacks[u][..|p.stacks[u]| - 1])
    ensures Stacked(q, u)
  {
    assert OnThread(p, t, j);
    var was, now := p.stacks[u], q.stacks[u];
    if was != [] {
      BelowTop(p, u);
    }
    forall i, k | 0 <= i < k < |now| ensures Earlier(q, now[i], now[k]) {
      assert Earlier(p, was[i], was[k]);
    }
    forall i | 0 <= i < |now| - 1 ensures Waiting(q.state, now[i]) {
      assert Waiting(p.state, was[i]) && OnThread(p, u, was[i]);
      assert was[i] == j ==> u == t;
    }
  }

  lemma GoKeeps(graph: Graph, limit: nat, p: Pool, t: nat)
    requires PoolInv(graph, p) && FreshQueue(p) && CanMove(p, Go(t))
    ensures PoolInv(graph, Moved(graph, limit, p, Go(t))) && FreshQueue(Moved(graph, limit, p, Go(t)))
  {
    var j := Top(p, t);
    var s := Step(graph, limit, p.state, j);
    var q := Moved(graph, limit, p, Go(t));
    StepKeepsInv(graph, limit, p.state, j);
    StepElsewhere(graph, limit, p.state, j);
    assert OnThread(p, t, j);
    assert Stacked(p, t);
    GoPlaces(p, t, j, s, q);
    forall u: nat | u < |q.stacks| ensures Stacked(q, u) {
      assert Stacked(p, u);
      GoStacks(p, t, u, j, s, q);
    }
    GoParents(p, j, s, q);
    assert forall i: nat :: Queued(q, i) && i < |p.state.jobs| ==> Queued(p, i);
  }

  lemma GoParents(p: Pool, j: nat, s: State, q: Pool)
    requires ParentsFirst(p) && Elsewhere(p.state, s, j) && j in p.started
    requires (forall i: nat :: i in p.started ==> i < |p.state.jobs|)
    requires q.state == s && q.started == p.started
    ensures ParentsFirst(q)
  {
    forall i: nat | i < |s.jobs| && s.jobs[i].owner.Child?
      ensures s.jobs[i].owner.job in q.started && (i in q.started ==> Earlier(q, s.jobs[i].owner.job, i))
    {
      if i < |p.state.jobs| {
        assert s.jobs[i].owner == p.state.jobs[i].owner;
        assert i in p.started ==> Earlier(p, p.state.jobs[i].owner.job, i);
      }
    }
  }

  /** Whatever thread moves next, jobs stay on one thread each, in order, and parents before children. */
  lemma MoveKeeps(graph: Graph, limit: nat, p: Pool, m: Move)
    requires PoolInv(graph, p) && FreshQueue(p) && CanMove(p, m)
    ensures PoolInv(graph, Moved(graph, limit, p, m)) && FreshQueue(Moved(graph, limit, p, m))
  {
    match m
    case Take(t, j) => TakeKeeps(graph, limit, p, t, j);
    case Go(t) => GoKeeps(graph, limit, p, t);
  }

  // ---------- No deadlock ----------

  /** The unfinished job taken last, if there is one. */
  lemma TakenLast(p: Pool) returns (found: bool, j: nat)
    requires forall i: nat :: i in p.started ==> i < |p.state.jobs|
    ensures !found ==> forall i: nat :: !Busy(p, i)
    ensures found ==> Busy(p, j) && forall i: nat :: Busy(p, i) && i != j ==> Earlier(p, i, j)
  {
    found, j := false, 0;
    for k := 0 to |p.started|
      invariant found ==> Busy(p, j) && Since(p.started, j) < k
      invariant forall i: nat :: Busy(p, i) && Since(p.started, i) < k ==> found && (i == j || Earlier(p, i, j))
    {
      var i := p.started[k];
      if Busy(p, i) && Since(p.started, i) == k {
        found, j := true, i;
      }
    }
  }

  lemma FirstIn(s: seq<nat>)
    requires s != []
    ensures s[0] in s
  {
  }

  /** Without a busy job every thread is empty. */
  lemma NothingStacked(p: Pool, t: nat)
    requires Placed(p) && t < |p.stacks| && forall i: nat :: !Busy(p, i)
    ensures p.stacks[t] == []
  {
    forall i: nat ensures i !in p.stacks[t] {
      assert OnThread(p, t, i) ==> Busy(p, i);
    }
    if p.stacks[t] != [] {
      FirstIn(p.stacks[t]);
      assert false;
    }
  }

  /** As long as the outer wait has not returned, some thread can move, whatever lies buried on the others. */
  lemma SomeThreadMoves(graph: Graph, p: Pool) returns (m: Move)
    requires PoolInv(graph, p) && p.state.completed != p.state.dispatched
    ensures CanMove(p, m)
  {
    var found, j := TakenLast(p);
    if !found {
      var i := QueuedOuter(graph, p);
      NothingStacked(p, 0);
      return Take(0, i);
    }
    var t: nat :| OnThread(p, t, j);
    LastIsTop(p, t, j);
    if Enabled(p.state, j) {
      return Go(t);
    }
    var i := QueuedChild(graph, p, j);
    return Take(t, i);
  }

  /** Before any job of the outer group is busy, one of them is queued. */
  lemma QueuedOuter(graph: Graph, p: Pool) returns (i: nat)
    requires Inv(graph, p.state) && p.state.completed != p.state.dispatched && forall i: nat :: !Busy(p, i)
    ensures Queued(p, i)
  {
    OpenMeans(p.state.jobs, Outer);
    i :| 0 <= i < |p.state.jobs| && p.state.jobs[i].owner == Outer && !p.state.jobs[i].finished;
    assert i in p.started ==> Busy(p, i);
  }

  /** Nothing lies on top of the unfinished job taken last. */
  lemma LastIsTop(p: Pool, t: nat, j: nat)
    requires Placed(p) && OnThread(p, t, j) && Stacked(p, t)
    requires forall i: nat :: Busy(p, i) && i != j ==> Earlier(p, i, j)
    ensures Top(p, t) == j
  {
    var k :| 0 <= k < |p.stacks[t]| && p.stacks[t][k] == j;
    var top := Top(p, t);
    assert OnThread(p, t, top);
    assert top != j ==> Earlier(p, j, top);
    assert top != j ==> Earlier(p, top, j);
  }

  /** If it waits with its counters apart, one of its children is still queued. */
  lemma QueuedChild(graph: Graph, p: Pool, j: nat) returns (i: nat)
    requires Inv(graph, p.state) && ParentsFirst(p) && Busy(p, j) && !Enabled(p.state, j)
    requires forall i: nat :: Busy(p, i) && i != j ==> Earlier(p, i, j)
    ensures Waiting(p.state, j) && Queued(p, i)
  {
    assert JobInv(graph, p.state.jobs, j);
    OpenMeans(p.state.jobs, Child(j));
    i :| 0 <= i < |p.state.jobs| && p.state.jobs[i].owner == Child(j) && !p.state.jobs[i].finished;
    assert i in p.started ==> Earlier(p, j, i);
    assert i in p.started ==> Busy(p, i) && i != j;
    assert i in p.started ==> Earlier(p, i, j);
  }

  /** A thread with nothing on it, or on whose top a job waits, can take any queued job; no other thread can. */
  lemma WhoTakes(graph: Graph, p: Pool, t: nat, j: nat)
    requires PoolInv(graph, p) && FreshQueue(p) && t < |p.stacks| && Queued(p, j)
    ensures CanMove(p, Take(t, j)) <==> p.stacks[t] == [] || Waiting(p.state, Top(p, t))
  {
    if p.state.completed == p.state.dispatched {
      AllFinished(graph, p.state);
    }
  }

  // ---------- Runs of the pool are runs of the jobs ----------

  ghost predicate PoolRun(graph: Graph, limit: nat, p: Pool, moves: seq<Move>, q: Pool)
    decreases |moves|
  {
    if moves == [] then p == q
    else
      && Inv(graph, p.state) && CanMove(p, moves[0])
      && PoolRun(graph, limit, Moved(graph, limit, p, moves[0]), moves[1..], q)
  }

  /**
    The jobs that step along a run of the pool, in order: a schedule of the job machine that ends in
    the same state.
  */
  lemma {:induction false} PoolRunIsRun(graph: Graph, limit: nat, p: Pool, moves: seq<Move>, q: Pool)
    returns (schedule: seq<nat>)
    requires PoolInv(graph, p) && FreshQueue(p) && PoolRun(graph, limit, p, moves, q)
    ensures Run(graph, limit, p.state, schedule, q.state) && PoolInv(graph, q)
    decreases |moves|
  {
    if moves == [] {
      return [];
    }
    var next := Moved(graph, limit, p, moves[0]);
    MoveKeeps(graph, limit, p, moves[0]);
    schedule := PoolRunIsRun(graph, limit, next, moves[1..], q);
    if moves[0].Go? {
      var j := Top(p, moves[0].thread);
      assert ([j] + schedule)[1..] == schedule;
      schedule := [j] + schedule;
    }
  }

  /**
    On any number of threads and in every run of them: when the outer wait returns, the callback
    has been called exactly once on every node reachable from the starts, and on no other.
  */
  lemma PoolTraversalComplete(graph: Graph, limit: nat, starts: seq<Node>, batches: seq<seq<Node>>, threads: nat,
                              moves: seq<Move>, q: Pool)
    requires WellFormed(graph) && StartsCovered(graph, starts, batches) && threads > 0
    requires PoolRun(graph, limit, Parked(batches, threads), moves, q) && q.state.completed == q.state.dispatched
    ensures forall t: nat :: t < |q.stacks| ==> q.stacks[t] == []
    ensures multiset(q.state.log) == multiset(q.state.visited)
    ensures forall n :: n in q.state.visited <==> Reachable(graph, starts, n)
  {
    var p := Parked(batches, threads);
    ParkedHolds(graph, starts, batches, threads);
    var schedule := PoolRunIsRun(graph, limit, p, moves, q);
    TraversalComplete(graph, limit, starts, batches, schedule, q.state);
    forall t: nat | t < |q.stacks| ensures q.stacks[t] == [] {
      NothingStacked(q, t);
    }
  }

  // ---------- Every run of the pool ends ----------

  function QueueSize(p: Pool): nat {
    |set j | 0 <= j < |p.state.jobs| && j !in p.started|
  }

  /** A step may post one job and makes the measure of the jobs smaller; taking a job shortens the queue. */
  ghost function PoolMeasure(graph: Graph, p: Pool): int {
    2 * Measure(graph, p.state) + QueueSize(p)
  }

  lemma QueueGrows(p: Pool, q: Pool)
    requires q.started == p.started && |p.state.jobs| <= |q.state.jobs| <= |p.state.jobs| + 1
    ensures QueueSize(q) <= QueueSize(p) + 1
  {
    var before := set j | 0 <= j < |p.state.jobs| && j !in p.started;
    var after := set j | 0 <= j < |q.state.jobs| && j !in q.started;
    assert after <= before + {|p.state.jobs|};
    Sizes(after, before + {|p.state.jobs|});
  }

  lemma Sizes(a: set<int>, b: set<int>)
    requires a <= b
    ensures |a| <= |b|
  {
    assert b == a + (b - a);
    assert |b| == |a| + |b - a|;
  }

  lemma QueueShrinks(p: Pool, j: nat, q: Pool)
    requires Queued(p, j) && q.state == p.state && q.started == p.started + [j]
    ensures QueueSize(q) < QueueSize(p)
  {
    var before := set i | 0 <= i < |p.state.jobs| && i !in p.started;
    var after := set i | 0 <= i < |q.state.jobs| && i !in q.started;
    assert j in before && after == before - {j};
  }

  lemma MoveDrops(graph: Graph, limit: nat, p: Pool, m: Move)
    requires Inv(graph, p.state) && CanMove(p, m)
    ensures PoolMeasure(graph, Moved(graph, limit, p, m)) < PoolMeasure(graph, p)
  {
    var q := Moved(graph, limit, p, m);
    match m
    case Take(t, j) => QueueShrinks(p, j, q);
    case Go(t) =>
      StepDrops(graph, limit, p.state, Top(p, t));
      StepElsewhere(graph, limit, p.state, Top(p, t));
      QueueGrows(p, q);
  }

  /** No run of the pool is longer than the measure of the pool it starts with. */
  lemma {:induction false} PoolRunsEnd(graph: Graph, limit: nat, p: Pool, moves: seq<Move>, q: Pool)
    requires PoolInv(graph, p) && FreshQueue(p) && PoolRun(graph, limit, p, moves, q)
    ensures |moves| <= PoolMeasure(graph, p)
    decreases |moves|
  {
    MeasureNotNegative(graph, p.state);
    if moves != [] {
      var next := Moved(graph, limit, p, moves[0]);
      MoveKeeps(graph, limit, p, moves[0]);
      MoveDrops(graph, limit, p, moves[0]);
      PoolRunsEnd(graph, limit, next, moves[1..], q);
    }
  }

  lemma PoolMeasureNotNegative(graph: Graph, p: Pool)
    requires Inv(graph, p.state)
    ensures PoolMeasure(graph, p) >= 0
  {
    MeasureNotNegative(graph, p.state);
  }

  lemma MoveCovers(graph: Graph, limit: nat, starts: seq<Node>, p: Pool, m: Move)
    requires Inv(graph, p.state) && CanMove(p, m) && Cover(graph, starts, p.state)
    ensures Cover(graph, starts, Moved(graph, limit, p, m).state)
  {
    if m.Go? {
      StepFrame(graph, limit, p.state, Top(p, m.thread));
      FrameKeepsCover(graph, starts, p.state, Moved(graph, limit, p, m).state);
    }
  }
}
