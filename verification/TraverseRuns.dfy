/**
  Runs of the concurrent traversal: whatever the interleaving, the callback is called on
  every reachable node once, and every run ends.
*/
module TraverseRuns {
  import opened Traverse

  // ---------- Reachability ----------

  ghost predicate Path(graph: Graph, p: seq<Node>) {
    && p != []
    && (forall k :: 0 <= k < |p| ==> p[k] < |graph|)
    && forall k :: 0 <= k < |p| - 1 ==> p[k + 1] in graph[p[k]]
  }

  ghost predicate PathTo(graph: Graph, starts: seq<Node>, n: Node, p: seq<Node>) {
    Path(graph, p) && p[0] in starts && p[|p| - 1] == n
  }

  ghost predicate Reachable(graph: Graph, starts: seq<Node>, n: Node) {
    exists p :: PathTo(graph, starts, n, p)
  }

  lemma ReachStart(graph: Graph, starts: seq<Node>, n: Node)
    requires n in starts && n < |graph|
    ensures Reachable(graph, starts, n)
  {
    assert PathTo(graph, starts, n, [n]);
  }

  lemma ReachNext(graph: Graph, starts: seq<Node>, n: Node, m: Node)
    requires WellFormed(graph) && Reachable(graph, starts, n) && n < |graph| && m in graph[n]
    ensures Reachable(graph, starts, m)
  {
    var p :| PathTo(graph, starts, n, p);
    assert PathTo(graph, starts, m, p + [m]);
  }

  /** A set with all starts that is closed under selection has everything reachable. */
  lemma {:induction false} ClosedCovers(graph: Graph, starts: seq<Node>, closed: set<Node>, p: seq<Node>)
    requires Path(graph, p) && p[0] in closed
    requires forall n, m :: n in closed && n < |graph| && m in graph[n] ==> m in closed
    ensures p[|p| - 1] in closed
  {
    if |p| > 1 {
      assert p[1] in graph[p[0]];
      assert Path(graph, p[1..]) by {
        forall k | 0 <= k < |p| - 2 ensures p[1..][k + 1] in graph[p[1..][k]] {
          assert p[k + 1 + 1] in graph[p[k + 1]];
        }
      }
      ClosedCovers(graph, starts, closed, p[1..]);
    }
  }

  // ---------- What a step does, seen from outside ----------

  /** New visits were awaited; what was awaited is visited or still awaited; a call awaits all it selects. */
  ghost predicate Frame(graph: Graph, s: State, t: State) {
    && s.visited <= t.visited
    && (forall n :: n in t.visited ==> n in s.visited || Awaited(s.jobs, n))
    && (forall n :: Awaited(s.jobs, n) ==> n in t.visited || Awaited(t.jobs, n))
    && ((t.log == s.log && (forall n :: Awaited(t.jobs, n) ==> Awaited(s.jobs, n)))
        || exists m :: Called(graph, s, t, m))
  }

  /** The step called the callback on `m`. */
  ghost predicate Called(graph: Graph, s: State, t: State, m: Node) {
    && m in s.visited && m < |graph| && t.log == s.log + [m]
    && (forall n :: n in graph[m] ==> Awaited(t.jobs, n))
    && forall n :: Awaited(t.jobs, n) ==> Awaited(s.jobs, n) || n in graph[m]
  }

  ghost predicate AwaitedBy(job: Job, n: Node) {
    n in job.todo || (job.act.Active? && n in job.act.pending)
  }

  lemma AwaitedAt(jobs: seq<Job>, n: Node)
    ensures Awaited(jobs, n) <==> exists j :: 0 <= j < |jobs| && AwaitedBy(jobs[j], n)
  {
    if exists j :: 0 <= j < |jobs| && AwaitedBy(jobs[j], n) {
      var j :| 0 <= j < |jobs| && AwaitedBy(jobs[j], n);
      assert n in jobs[j].todo || (jobs[j].act.Active? && n in jobs[j].act.pending);
    }
    if Awaited(jobs, n) {
      var j :| 0 <= j < |jobs| && (n in jobs[j].todo || (jobs[j].act.Active? && n in jobs[j].act.pending));
      assert AwaitedBy(jobs[j], n);
    }
  }

  /** Job by job: only job `j` may have awaited `item` and no longer does; new jobs await nothing. */
  lemma StepAwaits(s: seq<Job>, t: seq<Job>, j: nat, item: Node)
    requires j < |s| <= |t|
    requires forall i, n :: 0 <= i < |s| && i != j ==> (AwaitedBy(t[i], n) <==> AwaitedBy(s[i], n))
    requires forall i, n :: |s| <= i < |t| ==> !AwaitedBy(t[i], n)
    requires forall n :: AwaitedBy(t[j], n) ==> AwaitedBy(s[j], n)
    requires forall n :: AwaitedBy(s[j], n) ==> AwaitedBy(t[j], n) || n == item
    ensures forall n :: Awaited(t, n) ==> Awaited(s, n)
    ensures forall n :: Awaited(s, n) ==> Awaited(t, n) || n == item
  {
    forall n | Awaited(t, n) ensures Awaited(s, n) {
      AwaitedAt(s, n);
      AwaitedAt(t, n);
      var i :| 0 <= i < |t| && AwaitedBy(t[i], n);
      assert AwaitedBy(s[i], n);
    }
    forall n | Awaited(s, n) ensures Awaited(t, n) || n == item {
      AwaitedAt(s, n);
      AwaitedAt(t, n);
      var i :| 0 <= i < |s| && AwaitedBy(s[i], n);
      if i != j {
        assert AwaitedBy(t[i], n);
      }
    }
  }

  lemma SelectFrame(graph: Graph, limit: nat, s: State, j: nat)
    requires Inv(graph, s) && j < |s.jobs| && s.jobs[j].act.Active? && s.jobs[j].act.pending != []
    ensures Frame(graph, s, Select(limit, s, j))
  {
    var r := Select(limit, s, j);
    var pending := s.jobs[j].act.pending;
    var item := pending[0];
    assert pending == [item] + pending[1..];
    StepAwaits(s.jobs, r.jobs, j, item);
    AwaitedAt(s.jobs, item);
    assert AwaitedBy(s.jobs[j], item);
  }

  lemma StartFrame(graph: Graph, s: State, j: nat)
    requires j < |s.jobs| && s.jobs[j].act.Idle? && s.jobs[j].todo != []
    ensures Frame(graph, s, Start(s, j))
  {
    var r := Start(s, j);
    var todo := s.jobs[j].todo;
    var item := todo[0];
    assert todo == [item] + todo[1..];
    StepAwaits(s.jobs, r.jobs, j, item);
    AwaitedAt(s.jobs, item);
    assert AwaitedBy(s.jobs[j], item);
  }

  lemma PopFrame(graph: Graph, s: State, j: nat)
    requires Inv(graph, s) && j < |s.jobs| && s.jobs[j].act.Active?
    requires s.jobs[j].act.pending == [] && s.jobs[j].act.stack != []
    ensures s.jobs[j].act.stack[|s.jobs[j].act.stack| - 1] < |graph|
    ensures Frame(graph, s, Pop(graph, s, j))
  {
    StacksBounded(graph, s, j);
    var r := Pop(graph, s, j);
    var m := s.jobs[j].act.stack[|s.jobs[j].act.stack| - 1];
    forall n | Awaited(s.jobs, n) ensures Awaited(r.jobs, n) {
      AwaitedAt(s.jobs, n);
      AwaitedAt(r.jobs, n);
      var i :| 0 <= i < |s.jobs| && AwaitedBy(s.jobs[i], n);
      assert AwaitedBy(r.jobs[i], n);
    }
    forall n | n in graph[m] ensures Awaited(r.jobs, n) {
      AwaitedAt(r.jobs, n);
      assert AwaitedBy(r.jobs[j], n);
    }
    forall n | Awaited(r.jobs, n) ensures Awaited(s.jobs, n) || n in graph[m] {
      AwaitedAt(s.jobs, n);
      AwaitedAt(r.jobs, n);
      var i :| 0 <= i < |r.jobs| && AwaitedBy(r.jobs[i], n);
      if i != j || n in s.jobs[j].todo {
        assert AwaitedBy(s.jobs[i], n);
      }
    }
    assert Called(graph, s, r, m);
  }

  /** Every step has that shape. */
  lemma StepFrame(graph: Graph, limit: nat, s: State, j: nat)
    requires Inv(graph, s) && Enabled(s, j)
    ensures Frame(graph, s, Step(graph, limit, s, j))
  {
    var job := s.jobs[j];
    var r := Step(graph, limit, s, j);
    assert JobInv(graph, s.jobs, j);
    if job.act.Active? {
      if job.act.pending != [] {
        SelectFrame(graph, limit, s, j);
      } else if job.act.stack != [] {
        PopFrame(graph, s, j);
      } else {
        StepAwaits(s.jobs, r.jobs, j, 0);
        SameAwaits(s.jobs, r.jobs);
      }
    } else if job.todo != [] {
      StartFrame(graph, s, j);
    } else {
      assert job.owner.Child? ==> JobInv(graph, s.jobs, job.owner.job);
      OwnerActive(s.jobs, j);
      SameAwaits(s.jobs, r.jobs);
    }
  }

  lemma SameAwaits(s: seq<Job>, t: seq<Job>)
    requires |s| == |t| && forall i, n :: 0 <= i < |s| ==> (AwaitedBy(s[i], n) <==> AwaitedBy(t[i], n))
    ensures forall n :: Awaited(s, n) <==> Awaited(t, n)
  {
    forall n ensures Awaited(s, n) <==> Awaited(t, n) {
      AwaitedAt(s, n);
      AwaitedAt(t, n);
    }
  }

  // ---------- Coverage ----------

  /** Only reachable nodes are visited or awaited; starts and neighbours of called nodes are visited or awaited. */
  ghost predicate Cover(graph: Graph, starts: seq<Node>, s: State) {
    && (forall n :: n in s.visited ==> Reachable(graph, starts, n))
    && (forall n :: Awaited(s.jobs, n) ==> Reachable(graph, starts, n))
    && (forall n :: n in starts ==> n in s.visited || Awaited(s.jobs, n))
    && forall n, m :: n in s.log && n < |graph| && m in graph[n] ==> m in s.visited || Awaited(s.jobs, m)
  }

  lemma FrameKeepsCover(graph: Graph, starts: seq<Node>, s: State, t: State)
    requires WellFormed(graph) && Cover(graph, starts, s) && Frame(graph, s, t)
    ensures Cover(graph, starts, t)
  {
    if t.log != s.log || exists n :: Awaited(t.jobs, n) && !Awaited(s.jobs, n) {
      var c: nat :| Called(graph, s, t, c);
      forall n | Awaited(t.jobs, n) ensures Reachable(graph, starts, n) {
        if n in graph[c] {
          ReachNext(graph, starts, c, n);
        }
      }
    }
  }

  // ---------- Runs ----------

  ghost predicate StartsCovered(graph: Graph, starts: seq<Node>, batches: seq<seq<Node>>) {
    && (forall n :: n in starts ==> n < |graph|)
    && (forall n :: n in starts <==> exists b :: 0 <= b < |batches| && n in batches[b])
  }

  /** `t` comes from `s` when the jobs of `schedule` step in that order, none of them out of turn. */
  ghost predicate Run(graph: Graph, limit: nat, s: State, schedule: seq<nat>, t: State)
    decreases |schedule|
  {
    if schedule == [] then s == t
    else
      && Inv(graph, s) && Enabled(s, schedule[0])
      && Run(graph, limit, Step(graph, limit, s, schedule[0]), schedule[1..], t)
  }

  lemma InitialHolds(graph: Graph, starts: seq<Node>, batches: seq<seq<Node>>)
    requires WellFormed(graph) && StartsCovered(graph, starts, batches)
    ensures Inv(graph, Initial(batches)) && Cover(graph, starts, Initial(batches))
  {
    var s := Initial(batches);
    InitialCounts(s.jobs);
    forall j | 0 <= j < |s.jobs| ensures JobInv(graph, s.jobs, j) {
      OpenMeans(s.jobs, Child(j));
      forall n | n in s.jobs[j].todo ensures n < |graph| {
        assert 0 <= j < |batches| && n in batches[j];
        assert n in starts;
      }
    }
    forall n ensures Awaited(s.jobs, n) <==> n in starts {
      if n in starts {
        var b :| 0 <= b < |batches| && n in batches[b];
        assert n in s.jobs[b].todo;
      }
      if Awaited(s.jobs, n) {
        var j :| 0 <= j < |s.jobs| && (n in s.jobs[j].todo || (s.jobs[j].act.Active? && n in s.jobs[j].act.pending));
        assert n in batches[j];
      }
    }
    forall n | n in starts ensures Reachable(graph, starts, n) {
      ReachStart(graph, starts, n);
    }
  }

  lemma {:induction false} InitialCounts(jobs: seq<Job>)
    requires forall j :: 0 <= j < |jobs| ==> jobs[j].owner == Outer && jobs[j].act.Idle? && !jobs[j].finished
    ensures Open(jobs, Outer) == |jobs| && Stacks(jobs) == multiset{}
  {
    if jobs != [] {
      InitialCounts(jobs[1..]);
      assert multiset(StackOf(jobs[0])) == multiset{};
    }
  }

  /** In every state of every run the invariant and the coverage hold. */
  lemma {:induction false} RunKeeps(graph: Graph, limit: nat, starts: seq<Node>, s: State, schedule: seq<nat>, t: State)
    requires Inv(graph, s) && Cover(graph, starts, s) && Run(graph, limit, s, schedule, t)
    ensures Inv(graph, t) && Cover(graph, starts, t)
    decreases |schedule|
  {
    if schedule != [] {
      var next := Step(graph, limit, s, schedule[0]);
      StepKeepsInv(graph, limit, s, schedule[0]);
      StepFrame(graph, limit, s, schedule[0]);
      FrameKeepsCover(graph, starts, s, next);
      RunKeeps(graph, limit, starts, next, schedule[1..], t);
    }
  }

  // ---------- Balance of load ----------

  /** How many nodes a traversal keeps for itself besides the one it was entered with. */
  function Share(limit: nat): nat {
    if limit == 0 then 0 else limit - 1
  }

  /**
    A traversal dispatches just what is beyond its share of the nodes it has found, and what is
    on its stack are nodes it has not dispatched, besides the first one.
  */
  predicate Balanced(limit: nat, act: Activation) {
    act.Active? ==>
      && act.dispatched == (if act.toVisit > Share(limit) then act.toVisit - Share(limit) else 0)
      && |act.stack| <= 1 + act.toVisit - act.dispatched
  }

  ghost predicate AllBalanced(limit: nat, s: State) {
    forall j :: 0 <= j < |s.jobs| ==> Balanced(limit, s.jobs[j].act)
  }

  /** One activation replaced by a balanced one. */
  lemma SetBalanced(limit: nat, s: State, j: nat, act: Activation)
    requires j < |s.jobs| && AllBalanced(limit, s) && Balanced(limit, act)
    ensures AllBalanced(limit, SetAct(s, j, act))
  {
    forall i | 0 <= i < |s.jobs| ensures Balanced(limit, SetAct(s, j, act).jobs[i].act) {
      assert Balanced(limit, s.jobs[i].act);
    }
  }

  lemma SelectBalances(limit: nat, s: State, j: nat)
    requires AllBalanced(limit, s) && j < |s.jobs| && s.jobs[j].act.Active? && s.jobs[j].act.pending != []
    ensures AllBalanced(limit, Select(limit, s, j))
  {
    var a, t := s.jobs[j].act, Select(limit, s, j);
    assert Balanced(limit, a);
    if a.pending[0] in s.visited {
      SetBalanced(limit, s, j, t.jobs[j].act);
    } else {
      var s' := s.(visited := s.visited + {a.pending[0]});
      assert AllBalanced(limit, s');
      SetBalanced(limit, s', j, t.jobs[j].act);
      forall i | 0 <= i < |t.jobs| ensures Balanced(limit, t.jobs[i].act) {
        assert i < |s.jobs| ==> t.jobs[i] == SetAct(s', j, t.jobs[j].act).jobs[i];
      }
    }
  }

  lemma StepBalances(graph: Graph, limit: nat, s: State, j: nat)
    requires Inv(graph, s) && Enabled(s, j) && AllBalanced(limit, s)
    ensures AllBalanced(limit, Step(graph, limit, s, j))
  {
    var a, t := s.jobs[j].act, Step(graph, limit, s, j);
    assert JobInv(graph, s.jobs, j) && Balanced(limit, a);
    if a.Active? && a.pending != [] {
      SelectBalances(limit, s, j);
    } else if a.Active? || s.jobs[j].todo != [] {
      SetBalanced(limit, s, j, t.jobs[j].act);
      assert forall i :: 0 <= i < |s.jobs| ==> t.jobs[i].act == SetAct(s, j, t.jobs[j].act).jobs[i].act;
    } else if s.jobs[j].owner.Child? {
      var p := s.jobs[j].owner.job;
      assert JobInv(graph, s.jobs, p) && Balanced(limit, s.jobs[p].act);
      OwnerActive(s.jobs, j);
      SetBalanced(limit, s, p, t.jobs[p].act);
      assert forall i :: 0 <= i < |s.jobs| ==> t.jobs[i].act == SetAct(s, p, t.jobs[p].act).jobs[i].act;
    }
  }

  lemma {:induction false} RunBalances(graph: Graph, limit: nat, s: State, schedule: seq<nat>, t: State)
    requires Inv(graph, s) && AllBalanced(limit, s) && Run(graph, limit, s, schedule, t)
    ensures AllBalanced(limit, t)
    decreases |schedule|
  {
    if schedule != [] {
      StepBalances(graph, limit, s, schedule[0]);
      StepKeepsInv(graph, limit, s, schedule[0]);
      RunBalances(graph, limit, Step(graph, limit, s, schedule[0]), schedule[1..], t);
    }
  }

  /** The node found last is called first: what a callback has just stacked is next when it selects nothing more. */
  lemma LastFoundFirst(graph: Graph, limit: nat, s: State, j: nat)
    requires Inv(graph, s) && Enabled(s, j) && s.jobs[j].act.Active? && |s.jobs[j].act.pending| == 1
    requires s.jobs[j].act.pending[0] !in s.visited && |Step(graph, limit, s, j).jobs| == |s.jobs|
    ensures var t := Step(graph, limit, s, j);
      && Inv(graph, t) && Enabled(t, j)
      && Step(graph, limit, t, j).log == s.log + [s.jobs[j].act.pending[0]]
  {
    StepKeepsInv(graph, limit, s, j);
  }

  /** Once the outer counters agree, no job at all is unfinished, however deeply nested. */
  lemma AllFinished(graph: Graph, s: State)
    requires Inv(graph, s) && s.completed == s.dispatched
    ensures forall j :: 0 <= j < |s.jobs| ==> s.jobs[j].finished
  {
    OpenMeans(s.jobs, Outer);
    for j := 0 to |s.jobs|
      invariant forall i :: 0 <= i < j ==> s.jobs[i].finished
    {
      assert JobInv(graph, s.jobs, j);
      if s.jobs[j].owner.Child? {
        assert JobInv(graph, s.jobs, s.jobs[j].owner.job);
        if !s.jobs[j].finished {
          OwnerActive(s.jobs, j);
        }
      }
    }
  }

  lemma {:induction false} NothingStacked(jobs: seq<Job>)
    requires forall j :: 0 <= j < |jobs| ==> jobs[j].act.Idle?
    ensures Stacks(jobs) == multiset{}
  {
    if jobs != [] {
      NothingStacked(jobs[1..]);
      assert multiset(StackOf(jobs[0])) == multiset{};
    }
  }

  lemma LogDistinct(graph: Graph, t: State)
    requires Inv(graph, t)
    ensures forall i, k :: 0 <= i < k < |t.log| ==> t.log[i] != t.log[k]
    ensures forall n :: n in t.log ==> n in t.visited
  {
    forall n | n in t.log ensures n in t.visited {
      assert n in multiset(t.log) + Stacks(t.jobs);
    }
    forall i, k | 0 <= i < k < |t.log| ensures t.log[i] != t.log[k] {
      Once(t.log, Stacks(t.jobs), t.visited, t.log[k]);
      if t.log[i] == t.log[k] {
        Twice(t.log, i, k);
      }
    }
  }

  lemma Once(log: seq<Node>, stacks: multiset<Node>, visited: set<Node>, n: Node)
    requires multiset(log) + stacks == multiset(visited)
    ensures multiset(log)[n] <= 1
  {
    assert (multiset(log) + stacks)[n] == multiset(log)[n] + stacks[n];
    assert multiset(visited)[n] <= 1;
  }

  lemma Twice(log: seq<Node>, i: nat, k: nat)
    requires i < k < |log| && log[i] == log[k]
    ensures multiset(log)[log[k]] >= 2
  {
    assert log == log[..k] + ([log[k]] + log[k + 1..]);
    assert log[i] in log[..k];
    assert multiset(log) == multiset(log[..k]) + (multiset{log[k]} + multiset(log[k + 1..]));
  }

  /** In no state is the callback called on a node twice, or on one that is not reachable. */
  lemma CalledAtMostOnce(graph: Graph, limit: nat, starts: seq<Node>, batches: seq<seq<Node>>, schedule: seq<nat>,
      t: State)
    requires WellFormed(graph) && StartsCovered(graph, starts, batches)
    requires Run(graph, limit, Initial(batches), schedule, t)
    ensures forall i, k :: 0 <= i < k < |t.log| ==> t.log[i] != t.log[k]
    ensures forall n :: n in t.log ==> Reachable(graph, starts, n)
  {
    InitialHolds(graph, starts, batches);
    RunKeeps(graph, limit, starts, Initial(batches), schedule, t);
    LogDistinct(graph, t);
  }

  /**
    In every state of every run each traversal has dispatched just what is beyond its share; no stack
    outgrows the limit.
  */
  lemma LoadBalanced(graph: Graph, limit: nat, starts: seq<Node>, batches: seq<seq<Node>>, schedule: seq<nat>,
      t: State)
    requires WellFormed(graph) && StartsCovered(graph, starts, batches)
    requires Run(graph, limit, Initial(batches), schedule, t)
    ensures AllBalanced(limit, t)
    ensures forall j :: 0 <= j < |t.jobs| && t.jobs[j].act.Active? ==> |t.jobs[j].act.stack| <= 1 + Share(limit)
  {
    InitialHolds(graph, starts, batches);
    RunBalances(graph, limit, Initial(batches), schedule, t);
    forall j | 0 <= j < |t.jobs| && t.jobs[j].act.Active? ensures |t.jobs[j].act.stack| <= 1 + Share(limit) {
      assert Balanced(limit, t.jobs[j].act);
    }
  }

  /**
    When the outer wait returns, the callback has been called exactly once on every node
    reachable from the starts and on no other, and the flags set are those nodes'.
  */
  lemma TraversalComplete(graph: Graph, limit: nat, starts: seq<Node>, batches: seq<seq<Node>>, schedule: seq<nat>,
      t: State)
    requires WellFormed(graph) && StartsCovered(graph, starts, batches)
    requires Run(graph, limit, Initial(batches), schedule, t) && t.completed == t.dispatched
    ensures forall j :: 0 <= j < |t.jobs| ==> t.jobs[j].finished
    ensures multiset(t.log) == multiset(t.visited)
    ensures forall n :: n in t.visited <==> Reachable(graph, starts, n)
  {
    InitialHolds(graph, starts, batches);
    RunKeeps(graph, limit, starts, Initial(batches), schedule, t);
    WhenDone(graph, starts, t);
  }

  lemma WhenDone(graph: Graph, starts: seq<Node>, t: State)
    requires Inv(graph, t) && Cover(graph, starts, t) && t.completed == t.dispatched
    ensures forall j :: 0 <= j < |t.jobs| ==> t.jobs[j].finished
    ensures multiset(t.log) == multiset(t.visited)
    ensures forall n :: n in t.visited <==> Reachable(graph, starts, n)
  {
    AllFinished(graph, t);
    DoneIdle(graph, t);
    LogComplete(graph, t);
    forall n | Reachable(graph, starts, n) ensures n in t.visited {
      var p :| PathTo(graph, starts, n, p);
      ClosedCovers(graph, starts, t.visited, p);
    }
  }

  /** Finished jobs have nothing left to do and await nothing. */
  lemma DoneIdle(graph: Graph, t: State)
    requires Inv(graph, t) && forall j :: 0 <= j < |t.jobs| ==> t.jobs[j].finished
    ensures forall j :: 0 <= j < |t.jobs| ==> t.jobs[j].act.Idle? && t.jobs[j].todo == []
    ensures forall m :: !Awaited(t.jobs, m)
  {
    forall j | 0 <= j < |t.jobs| ensures t.jobs[j].act.Idle? && t.jobs[j].todo == [] {
      assert JobInv(graph, t.jobs, j);
    }
  }

  lemma LogComplete(graph: Graph, t: State)
    requires Inv(graph, t) && forall j :: 0 <= j < |t.jobs| ==> t.jobs[j].act.Idle?
    ensures multiset(t.log) == multiset(t.visited)
    ensures forall n :: n in t.visited ==> n in t.log
  {
    NothingStacked(t.jobs);
    assert multiset(t.log) + multiset{} == multiset(t.log);
    forall n | n in t.visited ensures n in t.log {
      assert n in multiset(t.visited);
    }
  }

  // ---------- Termination ----------

  ghost function StackWork(graph: Graph, stack: seq<Node>): nat {
    if stack == [] then 0
    else (if stack[0] < |graph| then 1 + |graph[stack[0]]| else 1) + StackWork(graph, stack[1..])
  }

  ghost function ActWork(graph: Graph, act: Activation): nat {
    if act.Active? then 1 + |act.pending| + StackWork(graph, act.stack) else 0
  }

  ghost function JobWork(graph: Graph, job: Job): nat {
    (if job.finished then 0 else 1) + |job.todo| + ActWork(graph, job.act)
  }

  ghost function Work(graph: Graph, jobs: seq<Job>): nat {
    if jobs == [] then 0 else JobWork(graph, jobs[0]) + Work(graph, jobs[1..])
  }

  ghost function MaxDegree(graph: Graph): (d: nat)
    ensures forall n :: 0 <= n < |graph| ==> |graph[n]| <= d
  {
    if graph == [] then 0 else
      var d := MaxDegree(graph[1..]);
      assert forall n :: 0 < n < |graph| ==> graph[n] == graph[1..][n - 1];
      if |graph[0]| > d then |graph[0]| else d
  }

  lemma {:induction false} StackWorkConcat(graph: Graph, a: seq<Node>, b: seq<Node>)
    ensures StackWork(graph, a + b) == StackWork(graph, a) + StackWork(graph, b)
  {
    if a == [] {
      assert a + b == b;
    } else {
      assert (a + b)[1..] == a[1..] + b;
      StackWorkConcat(graph, a[1..], b);
    }
  }

  lemma {:induction false} WorkUpdate(graph: Graph, jobs: seq<Job>, j: nat, job: Job)
    requires j < |jobs|
    ensures Work(graph, jobs[j := job]) + JobWork(graph, jobs[j]) == Work(graph, jobs) + JobWork(graph, job)
  {
    if j == 0 {
      assert jobs[0 := job][1..] == jobs[1..];
    } else {
      assert jobs[j := job][1..] == jobs[1..][j - 1 := job];
      WorkUpdate(graph, jobs[1..], j - 1, job);
    }
  }

  lemma {:induction false} WorkAppend(graph: Graph, jobs: seq<Job>, job: Job)
    ensures Work(graph, jobs + [job]) == Work(graph, jobs) + JobWork(graph, job)
  {
    if jobs == [] {
      assert [] + [job] == [job] && [job][1..] == [];
    } else {
      assert (jobs + [job])[1..] == jobs[1..] + [job];
      WorkAppend(graph, jobs[1..], job);
    }
  }

  /** A bound on the steps still to come: every unvisited node may cost its neighbours and a job. */
  ghost function Measure(graph: Graph, s: State): int {
    (|graph| - |s.visited|) * (4 + MaxDegree(graph)) + Work(graph, s.jobs)
  }

  lemma {:induction false} BoundedSet(s: set<Node>, n: nat)
    requires forall x :: x in s ==> x < n
    ensures |s| <= n
  {
    if n > 0 {
      BoundedSet(s - {n - 1}, n - 1);
      assert |s| <= |s - {n - 1}| + 1;
    } else {
      assert s == {};
    }
  }

  lemma Product(x: int, c: nat)
    ensures x >= 0 ==> x * c >= 0
    ensures (x - 1) * c == x * c - c
  {
  }

  /** Work that does not grow more than one visit allows makes the measure smaller. */
  lemma MeasureDrops(graph: Graph, s: State, t: State)
    requires (t.visited == s.visited && Work(graph, t.jobs) < Work(graph, s.jobs))
          || (|t.visited| == |s.visited| + 1 && Work(graph, t.jobs) < Work(graph, s.jobs) + 4 + MaxDegree(graph))
    ensures Measure(graph, t) < Measure(graph, s)
  {
    if t.visited != s.visited {
      Product(|graph| - |s.visited|, 4 + MaxDegree(graph));
    }
  }

  /** Every step makes the measure smaller. */
  lemma StepDrops(graph: Graph, limit: nat, s: State, j: nat)
    requires Inv(graph, s) && Enabled(s, j)
    ensures Measure(graph, Step(graph, limit, s, j)) < Measure(graph, s)
  {
    var job := s.jobs[j];
    var t := Step(graph, limit, s, j);
    assert JobInv(graph, s.jobs, j);
    if job.act.Active? && job.act.pending != [] {
      SelectDrops(graph, limit, s, j);
    } else if job.act.Active? && job.act.stack != [] {
      PopDrops(graph, s, j);
    } else if job.act.Active? {
      WorkUpdate(graph, s.jobs, j, t.jobs[j]);
      MeasureDrops(graph, s, t);
    } else if job.todo != [] {
      var item := job.todo[0];
      assert t.jobs == s.jobs[j := t.jobs[j]];
      WorkUpdate(graph, s.jobs, j, t.jobs[j]);
      assert item in job.todo;
      assert StackWork(graph, [item]) == 1 + |graph[item]|;
      MeasureDrops(graph, s, t);
    } else {
      FinishDrops(graph, s, j);
    }
  }

  lemma SelectDrops(graph: Graph, limit: nat, s: State, j: nat)
    requires Inv(graph, s) && j < |s.jobs| && s.jobs[j].act.Active? && s.jobs[j].act.pending != []
    ensures Measure(graph, Select(limit, s, j)) < Measure(graph, s)
  {
    var t := Select(limit, s, j);
    SelectWork(graph, limit, s, j);
    MeasureDrops(graph, s, t);
  }

  lemma SelectWork(graph: Graph, limit: nat, s: State, j: nat)
    requires Inv(graph, s) && j < |s.jobs| && s.jobs[j].act.Active? && s.jobs[j].act.pending != []
    ensures var t := Select(limit, s, j);
      if s.jobs[j].act.pending[0] in s.visited then Work(graph, t.jobs) < Work(graph, s.jobs)
      else Work(graph, t.jobs) < Work(graph, s.jobs) + 4 + MaxDegree(graph)
  {
    var a := s.jobs[j].act;
    var item := a.pending[0];
    var job := Select(limit, s, j).jobs[j];
    assert JobInv(graph, s.jobs, j) && item in a.pending;
    assert |graph[item]| <= MaxDegree(graph);
    WorkUpdate(graph, s.jobs, j, job);
    StackWorkConcat(graph, a.stack, [item]);
    var cost := StackWork(graph, [item]);
    assert cost == 1 + |graph[item]|;
    if item !in s.visited && a.toVisit + 1 >= limit {
      var child := Job(Child(j), [], Enter(item), false);
      WorkAppend(graph, s.jobs[j := job], child);
      assert JobWork(graph, child) == 2 + cost;
    }
  }

  lemma PopDrops(graph: Graph, s: State, j: nat)
    requires Inv(graph, s) && j < |s.jobs| && s.jobs[j].act.Active?
    requires s.jobs[j].act.pending == [] && s.jobs[j].act.stack != []
    ensures s.jobs[j].act.stack[|s.jobs[j].act.stack| - 1] < |graph|
    ensures Measure(graph, Pop(graph, s, j)) < Measure(graph, s)
  {
    StacksBounded(graph, s, j);
    var stack := s.jobs[j].act.stack;
    var top := |stack| - 1;
    var t := Pop(graph, s, j);
    assert stack == stack[..top] + [stack[top]];
    StackWorkConcat(graph, stack[..top], [stack[top]]);
    assert StackWork(graph, [stack[top]]) == 1 + |graph[stack[top]]|;
    WorkUpdate(graph, s.jobs, j, t.jobs[j]);
    MeasureDrops(graph, s, t);
  }

  lemma FinishDrops(graph: Graph, s: State, j: nat)
    requires Inv(graph, s) && Enabled(s, j) && s.jobs[j].act.Idle? && s.jobs[j].todo == []
    ensures Measure(graph, Step(graph, 0, s, j)) < Measure(graph, s)
  {
    var t := Step(graph, 0, s, j);
    var done := s.jobs[j].(finished := true);
    assert JobInv(graph, s.jobs, j);
    WorkUpdate(graph, s.jobs, j, done);
    if s.jobs[j].owner.Child? {
      var p := s.jobs[j].owner.job;
      assert JobInv(graph, s.jobs, p);
      OwnerActive(s.jobs, j);
      WorkUpdate(graph, s.jobs[j := done], p, t.jobs[p]);
    }
    MeasureDrops(graph, s, t);
  }

  lemma MeasureNotNegative(graph: Graph, s: State)
    requires Inv(graph, s)
    ensures Measure(graph, s) >= 0
  {
    BoundedSet(s.visited, |graph|);
    Product(|graph| - |s.visited|, 4 + MaxDegree(graph));
  }

  /** Every run ends: no schedule is longer than the measure of the state it starts in. */
  lemma {:induction false} RunsEnd(graph: Graph, limit: nat, s: State, schedule: seq<nat>, t: State)
    requires Inv(graph, s) && Run(graph, limit, s, schedule, t)
    ensures |schedule| <= Measure(graph, s)
    decreases |schedule|
  {
    MeasureNotNegative(graph, s);
    if schedule != [] {
      var next := Step(graph, limit, s, schedule[0]);
      StepKeepsInv(graph, limit, s, schedule[0]);
      StepDrops(graph, limit, s, schedule[0]);
      RunsEnd(graph, limit, next, schedule[1..], t);
    }
  }
}
