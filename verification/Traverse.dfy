/**
  The concurrent graph traversal (query_traverse.cpp) and its task groups
  (thread_pool.cpp), as a state machine.

  A job is a posted function.  One step of one job is one atomic exchange of a visited
  flag, one callback, or one completion; any job that is not waiting may take the next
  step, so a run is any sequence of job numbers.  Which job a thread can step is a matter of
  `TraverseThreads`; its runs are among these.
*/
module Traverse {
  type Node = nat

  /** `graph[n]` lists what the callback selects when it is called on node `n`. */
  type Graph = seq<seq<Node>>

  ghost predicate WellFormed(graph: Graph) {
    forall n, k :: 0 <= n < |graph| && 0 <= k < |graph[n]| ==> graph[n][k] < |graph|
  }

  /** One call of `traverse(iNode &)`: its stack, what the running callback still selects, and its task group. */
  datatype Activation =
    | Idle
    | Active(stack: seq<Node>, pending: seq<Node>, toVisit: nat, dispatched: nat, completed: nat)

  /** Where a job is counted as complete: in the outer group, or that of the activation of another job. */
  datatype Owner = Outer | Child(job: nat)

  datatype Job = Job(owner: Owner, todo: seq<Node>, act: Activation, finished: bool)

  datatype State = State(visited: set<Node>, log: seq<Node>, jobs: seq<Job>, dispatched: nat, completed: nat)

  function Enter(n: Node): Activation {
    Active([n], [], 0, 0, 0)
  }

  /** The outer `parallel_for` has posted one job for each batch of starts; no flag is set. */
  function Initial(batches: seq<seq<Node>>): State {
    State({}, [], seq(|batches|, i requires 0 <= i < |batches| => Job(Outer, batches[i], Idle, false)), |batches|, 0)
  }

  // ---------- Steps ----------

  /** A job can take a step unless it has finished or waits for a job it dispatched. */
  predicate Enabled(s: State, j: nat) {
    && j < |s.jobs| && !s.jobs[j].finished
    && (s.jobs[j].act.Active? && s.jobs[j].act.pending == [] && s.jobs[j].act.stack == [] ==>
          s.jobs[j].act.completed == s.jobs[j].act.dispatched)
  }

  function SetAct(s: State, j: nat, act: Activation): State
    requires j < |s.jobs|
  {
    s.(jobs := s.jobs[j := s.jobs[j].(act := act)])
  }

  /** The callback selects the next neighbour: its flag is exchanged, and a new node is stacked or dispatched. */
  function Select(limit: nat, s: State, j: nat): State
    requires j < |s.jobs| && s.jobs[j].act.Active? && s.jobs[j].act.pending != []
  {
    var a := s.jobs[j].act;
    var item, a' := a.pending[0], a.(pending := a.pending[1..]);
    if item in s.visited then SetAct(s, j, a') else
      var s' := s.(visited := s.visited + {item});
      if a.toVisit + 1 < limit then
        SetAct(s', j, a'.(toVisit := a.toVisit + 1, stack := a.stack + [item]))
      else
        var t := SetAct(s', j, a'.(toVisit := a.toVisit + 1, dispatched := a.dispatched + 1));
        t.(jobs := t.jobs + [Job(Child(j), [], Enter(item), false)])
  }

  /** The next node is taken off the stack and the callback is called on it. */
  function Pop(graph: Graph, s: State, j: nat): State
    requires j < |s.jobs| && s.jobs[j].act.Active? && s.jobs[j].act.stack != []
    requires s.jobs[j].act.stack[|s.jobs[j].act.stack| - 1] < |graph|
  {
    var a := s.jobs[j].act;
    var top := |a.stack| - 1;
    SetAct(s, j, a.(stack := a.stack[..top], pending := graph[a.stack[top]])).(log := s.log + [a.stack[top]])
  }

  /** A batch looks at its next start. */
  function Start(s: State, j: nat): State
    requires j < |s.jobs| && s.jobs[j].todo != []
  {
    var item := s.jobs[j].todo[0];
    var job := s.jobs[j].(todo := s.jobs[j].todo[1..]);
    if item in s.visited then s.(jobs := s.jobs[j := job])
    else s.(visited := s.visited + {item}, jobs := s.jobs[j := job.(act := Enter(item))])
  }

  /** The job returns and the counter of its task group goes up. */
  function Finish(s: State, j: nat): State
    requires j < |s.jobs|
    requires s.jobs[j].owner.Child? ==> s.jobs[j].owner.job < |s.jobs| && s.jobs[s.jobs[j].owner.job].act.Active?
  {
    var t := s.(jobs := s.jobs[j := s.jobs[j].(finished := true)]);
    match s.jobs[j].owner
    case Outer => t.(completed := s.completed + 1)
    case Child(p) => SetAct(t, p, t.jobs[p].act.(completed := t.jobs[p].act.completed + 1))
  }

  function Step(graph: Graph, limit: nat, s: State, j: nat): State
    requires Enabled(s, j) && Inv(graph, s)
  {
    var job := s.jobs[j];
    assert JobInv(graph, s.jobs, j);
    if job.act.Active? then
      if job.act.pending != [] then Select(limit, s, j)
      else if job.act.stack != [] then
        StacksBounded(graph, s, j);
        Pop(graph, s, j)
      else SetAct(s, j, Idle)
    else if job.todo != [] then Start(s, j)
    else
      assert job.owner.Child? ==> JobInv(graph, s.jobs, job.owner.job);
      OwnerActive(s.jobs, j);
      Finish(s, j)
  }

  // ---------- Invariant ----------

  function StackOf(job: Job): seq<Node> {
    if job.act.Active? then job.act.stack else []
  }

  ghost function Stacks(jobs: seq<Job>): multiset<Node> {
    if jobs == [] then multiset{} else multiset(StackOf(jobs[0])) + Stacks(jobs[1..])
  }

  function Open(jobs: seq<Job>, owner: Owner): nat {
    if jobs == [] then 0 else (if jobs[0].owner == owner && !jobs[0].finished then 1 else 0) + Open(jobs[1..], owner)
  }

  /** Some job still has the node among what its callback selects, or among its starts. */
  ghost predicate Awaited(jobs: seq<Job>, n: Node) {
    exists j :: 0 <= j < |jobs| && (n in jobs[j].todo || (jobs[j].act.Active? && n in jobs[j].act.pending))
  }

  /** The counters of the group a job dispatches into: how many jobs it dispatched have not finished. */
  ghost predicate Counted(jobs: seq<Job>, j: nat)
    requires j < |jobs|
  {
    match jobs[j].act
    case Idle => Open(jobs, Child(j)) == 0
    case Active(_, _, _, dispatched, completed) => dispatched == completed + Open(jobs, Child(j))
  }

  ghost predicate JobInv(graph: Graph, jobs: seq<Job>, j: nat)
    requires j < |jobs|
  {
    && (jobs[j].finished ==> jobs[j].act.Idle? && jobs[j].todo == [])
    && (jobs[j].owner.Child? ==> jobs[j].owner.job < j)
    && (forall n :: n in jobs[j].todo ==> n < |graph|)
    && (jobs[j].act.Active? ==> forall n :: n in jobs[j].act.pending ==> n < |graph|)
    && Counted(jobs, j)
  }

  /** What holds between any two steps, whatever the starts. */
  ghost predicate Inv(graph: Graph, s: State) {
    && WellFormed(graph)
    && (forall n :: n in s.visited ==> n < |graph|)
    && multiset(s.log) + Stacks(s.jobs) == multiset(s.visited)
    && (forall j :: 0 <= j < |s.jobs| ==> JobInv(graph, s.jobs, j))
    && s.dispatched == s.completed + Open(s.jobs, Outer)
  }

  // ---------- Counting lemmas ----------

  lemma Regroup(x: multiset<Node>, y: multiset<Node>, z: multiset<Node>)
    ensures (x + y) + z == x + (y + z)
  {
  }

  lemma {:induction false} StacksUpdate(jobs: seq<Job>, j: nat, job: Job)
    requires j < |jobs|
    ensures Stacks(jobs[j := job]) + multiset(StackOf(jobs[j])) == Stacks(jobs) + multiset(StackOf(job))
  {
    if j == 0 {
      assert jobs[0 := job][1..] == jobs[1..];
    } else {
      var head := multiset(StackOf(jobs[0]));
      assert jobs[j := job][1..] == jobs[1..][j - 1 := job];
      StacksUpdate(jobs[1..], j - 1, job);
      Regroup(head, Stacks(jobs[1..][j - 1 := job]), multiset(StackOf(jobs[j])));
      Regroup(head, Stacks(jobs[1..]), multiset(StackOf(job)));
    }
  }

  lemma {:induction false} StacksAppend(jobs: seq<Job>, job: Job)
    ensures Stacks(jobs + [job]) == Stacks(jobs) + multiset(StackOf(job))
  {
    if jobs == [] {
      assert [] + [job] == [job] && [job][1..] == [];
    } else {
      assert (jobs + [job])[1..] == jobs[1..] + [job];
      StacksAppend(jobs[1..], job);
    }
  }

  lemma {:induction false} StacksContain(jobs: seq<Job>, j: nat)
    requires j < |jobs|
    ensures multiset(StackOf(jobs[j])) <= Stacks(jobs)
  {
    if j > 0 {
      StacksContain(jobs[1..], j - 1);
    }
  }

  lemma {:induction false} OpenUpdate(jobs: seq<Job>, j: nat, job: Job, owner: Owner)
    requires j < |jobs| && job.owner == jobs[j].owner
    ensures Open(jobs[j := job], owner) + (if jobs[j].owner == owner && !jobs[j].finished then 1 else 0)
         == Open(jobs, owner) + (if job.owner == owner && !job.finished then 1 else 0)
  {
    if j == 0 {
      assert jobs[0 := job][1..] == jobs[1..];
    } else {
      assert jobs[j := job][1..] == jobs[1..][j - 1 := job];
      OpenUpdate(jobs[1..], j - 1, job, owner);
    }
  }

  lemma {:induction false} OpenAppend(jobs: seq<Job>, job: Job, owner: Owner)
    ensures Open(jobs + [job], owner) == Open(jobs, owner) + if job.owner == owner && !job.finished then 1 else 0
  {
    if jobs == [] {
      assert [] + [job] == [job] && [job][1..] == [];
    } else {
      assert (jobs + [job])[1..] == jobs[1..] + [job];
      OpenAppend(jobs[1..], job, owner);
    }
  }

  lemma {:induction false} OpenMeans(jobs: seq<Job>, owner: Owner)
    ensures Open(jobs, owner) > 0 <==> exists j :: 0 <= j < |jobs| && jobs[j].owner == owner && !jobs[j].finished
  {
    if jobs != [] {
      OpenMeans(jobs[1..], owner);
      if Open(jobs[1..], owner) > 0 {
        var j :| 0 <= j < |jobs| - 1 && jobs[1..][j].owner == owner && !jobs[1..][j].finished;
        assert jobs[j + 1].owner == owner && !jobs[j + 1].finished;
      }
      assert forall j :: 0 < j < |jobs| ==> jobs[j] == jobs[1..][j - 1];
    }
  }

  /** What is stacked has been visited, so it is a node of the graph. */
  lemma StacksBounded(graph: Graph, s: State, j: nat)
    requires Inv(graph, s) && j < |s.jobs| && s.jobs[j].act.Active?
    ensures forall k :: 0 <= k < |s.jobs[j].act.stack| ==> s.jobs[j].act.stack[k] in s.visited
  {
    StacksContain(s.jobs, j);
    forall k | 0 <= k < |s.jobs[j].act.stack| ensures s.jobs[j].act.stack[k] in s.visited {
      assert s.jobs[j].act.stack[k] in multiset(StackOf(s.jobs[j]));
      assert s.jobs[j].act.stack[k] in multiset(s.log) + Stacks(s.jobs);
    }
  }

  /** The job that dispatched an unfinished one is itself still in its activation. */
  lemma OwnerActive(jobs: seq<Job>, j: nat)
    requires j < |jobs| && !jobs[j].finished
    requires jobs[j].owner.Child? ==> jobs[j].owner.job < |jobs| && Counted(jobs, jobs[j].owner.job)
    ensures jobs[j].owner.Child? ==> jobs[jobs[j].owner.job].act.Active?
  {
    OpenMeans(jobs, jobs[j].owner);
  }

  // ---------- Every step keeps the invariant ----------

  /** Replacing a job's activation by one with the same counters keeps every count. */
  lemma SetActCounts(jobs: seq<Job>, j: nat, job: Job)
    requires j < |jobs| && job.owner == jobs[j].owner && job.finished == jobs[j].finished
    ensures forall owner :: Open(jobs[j := job], owner) == Open(jobs, owner)
  {
    forall owner ensures Open(jobs[j := job], owner) == Open(jobs, owner) {
      OpenUpdate(jobs, j, job, owner);
    }
  }

  /** One job replaced, its owner and end untouched and its counters still right: all jobs are in order. */
  lemma JobReplaced(graph: Graph, jobs: seq<Job>, j: nat, job: Job, jobs': seq<Job>)
    requires forall i :: 0 <= i < |jobs| ==> JobInv(graph, jobs, i)
    requires j < |jobs| && jobs' == jobs[j := job] && job.owner == jobs[j].owner && job.finished == jobs[j].finished
    requires JobInv(graph, jobs', j)
    ensures forall i :: 0 <= i < |jobs'| ==> JobInv(graph, jobs', i)
    ensures Open(jobs', Outer) == Open(jobs, Outer)
    ensures Stacks(jobs') + multiset(StackOf(jobs[j])) == Stacks(jobs) + multiset(StackOf(job))
  {
    SetActCounts(jobs, j, job);
    StacksUpdate(jobs, j, job);
    forall i | 0 <= i < |jobs'| ensures JobInv(graph, jobs', i) {
      assert JobInv(graph, jobs, i);
    }
  }

  lemma Cancel(x: multiset<Node>, y: multiset<Node>, z: multiset<Node>)
    requires x + z == y + z
    ensures x == y
  {
    forall e ensures x[e] == y[e] {
      assert (x + z)[e] == x[e] + z[e] && (y + z)[e] == y[e] + z[e];
    }
  }

  lemma SelectKeepsInv(graph: Graph, limit: nat, s: State, j: nat)
    requires Inv(graph, s) && j < |s.jobs| && !s.jobs[j].finished
    requires s.jobs[j].act.Active? && s.jobs[j].act.pending != []
    ensures Inv(graph, Select(limit, s, j))
  {
    var a := s.jobs[j].act;
    var item := a.pending[0];
    var r := Select(limit, s, j);
    var job := r.jobs[j];
    assert JobInv(graph, s.jobs, j);
    assert item in a.pending && forall n :: n in a.pending[1..] ==> n in a.pending;
    SetActCounts(s.jobs, j, job);
    if item in s.visited || a.toVisit + 1 < limit {
      JobReplaced(graph, s.jobs, j, job, r.jobs);
      if item in s.visited {
        Cancel(Stacks(r.jobs), Stacks(s.jobs), multiset(a.stack));
      } else {
        VisitOne(s, item, Stacks(s.jobs), Stacks(r.jobs), a.stack);
      }
    } else {
      SpawnKeepsInv(graph, limit, s, j);
    }
  }

  lemma SpawnKeepsInv(graph: Graph, limit: nat, s: State, j: nat)
    requires Inv(graph, s) && j < |s.jobs| && !s.jobs[j].finished
    requires s.jobs[j].act.Active? && s.jobs[j].act.pending != []
    requires s.jobs[j].act.pending[0] !in s.visited && s.jobs[j].act.toVisit + 1 >= limit
    ensures Inv(graph, Select(limit, s, j))
  {
    var a := s.jobs[j].act;
    var item := a.pending[0];
    var r := Select(limit, s, j);
    var job, child := r.jobs[j], Job(Child(j), [], Enter(item), false);
    var jobs := s.jobs[j := job];
    assert r.jobs == jobs + [child];
    assert JobInv(graph, s.jobs, j);
    assert item in a.pending && forall n :: n in a.pending[1..] ==> n in a.pending;
    SpawnJobs(graph, s.jobs, j, job, child, r.jobs);
    StacksUpdate(s.jobs, j, job);
    StacksAppend(jobs, child);
    Cancel(Stacks(jobs), Stacks(s.jobs), multiset(a.stack));
    VisitOne(s, item, Stacks(s.jobs), Stacks(r.jobs), []);
  }

  lemma SpawnJobs(graph: Graph, jobs: seq<Job>, j: nat, job: Job, child: Job, r: seq<Job>)
    requires forall i :: 0 <= i < |jobs| ==> JobInv(graph, jobs, i)
    requires j < |jobs| && !jobs[j].finished && jobs[j].act.Active?
    requires child == Job(Child(j), [], child.act, false) && child.act.Active? && child.act.pending == []
    requires child.act.dispatched == child.act.completed
    requires job.act.Active? && job == jobs[j].(act := job.act) && job.act.completed == jobs[j].act.completed
    requires job.act.dispatched == jobs[j].act.dispatched + 1 && forall n :: n in job.act.pending ==> n < |graph|
    requires r == jobs[j := job] + [child]
    ensures forall i :: 0 <= i < |r| ==> JobInv(graph, r, i)
    ensures Open(r, Outer) == Open(jobs, Outer)
  {
    SetActCounts(jobs, j, job);
    NoChildren(graph, jobs, |jobs|);
    forall owner ensures Open(r, owner) == Open(jobs, owner) + if owner == Child(j) then 1 else 0 {
      OpenAppend(jobs[j := job], child, owner);
    }
    forall i | 0 <= i < |r| ensures JobInv(graph, r, i) {
      if i < |jobs| {
        assert JobInv(graph, jobs, i);
        assert r[i] == if i == j then job else jobs[i];
      } else {
        assert r[i] == child;
      }
    }
  }

  /** One more node visited and one more stacked. */
  lemma VisitOne(s: State, item: Node, before: multiset<Node>, after: multiset<Node>, stack: seq<Node>)
    requires item !in s.visited && multiset(s.log) + before == multiset(s.visited)
    requires after + multiset(stack) == before + multiset(stack + [item])
    ensures multiset(s.log) + after == multiset(s.visited + {item})
  {
    assert multiset(stack + [item]) == multiset(stack) + multiset{item};
    assert before + multiset(stack + [item]) == (before + multiset{item}) + multiset(stack);
    Cancel(after, before + multiset{item}, multiset(stack));
    assert multiset(s.visited + {item}) == multiset(s.visited) + multiset{item};
    Regroup(multiset(s.log), before, multiset{item});
  }

  /** No job belongs to one that does not exist yet. */
  lemma NoChildren(graph: Graph, jobs: seq<Job>, j: nat)
    requires forall i :: 0 <= i < |jobs| ==> JobInv(graph, jobs, i)
    requires j >= |jobs|
    ensures Open(jobs, Child(j)) == 0
  {
    OpenMeans(jobs, Child(j));
    forall i | 0 <= i < |jobs| ensures jobs[i].owner != Child(j) {
      assert JobInv(graph, jobs, i);
    }
  }

  lemma PopKeepsInv(graph: Graph, s: State, j: nat)
    requires Inv(graph, s) && j < |s.jobs| && !s.jobs[j].finished
    requires s.jobs[j].act.Active? && s.jobs[j].act.pending == [] && s.jobs[j].act.stack != []
    requires s.jobs[j].act.stack[|s.jobs[j].act.stack| - 1] < |graph|
    ensures Inv(graph, Pop(graph, s, j))
  {
    var a := s.jobs[j].act;
    var r := Pop(graph, s, j);
    var job := r.jobs[j];
    var top := a.stack[|a.stack| - 1];
    assert JobInv(graph, s.jobs, j);
    SetActCounts(s.jobs, j, job);
    forall n | n in job.act.pending ensures n < |graph| {
      assert exists k :: 0 <= k < |graph[top]| && graph[top][k] == n;
    }
    JobReplaced(graph, s.jobs, j, job, r.jobs);
    LogOne(s.log, Stacks(s.jobs), Stacks(r.jobs), a.stack);
  }

  /** One stacked node less and one more in the log. */
  lemma LogOne(log: seq<Node>, before: multiset<Node>, after: multiset<Node>, stack: seq<Node>)
    requires stack != []
    requires var top := |stack| - 1; after + multiset(stack) == before + multiset(stack[..top])
    ensures var top := |stack| - 1; multiset(log + [stack[top]]) + after == multiset(log) + before
  {
    var top := |stack| - 1;
    var one := multiset{stack[top]};
    assert stack == stack[..top] + [stack[top]];
    assert multiset(stack) == multiset(stack[..top]) + one;
    assert after + multiset(stack) == (after + one) + multiset(stack[..top]);
    Cancel(after + one, before, multiset(stack[..top]));
    assert multiset(log + [stack[top]]) == multiset(log) + one;
    assert (multiset(log) + one) + after == multiset(log) + (after + one);
  }

  lemma LeaveKeepsInv(graph: Graph, s: State, j: nat)
    requires Inv(graph, s) && Enabled(s, j) && s.jobs[j].act.Active?
    requires s.jobs[j].act.pending == [] && s.jobs[j].act.stack == []
    ensures Inv(graph, SetAct(s, j, Idle))
  {
    var job := s.jobs[j].(act := Idle);
    assert JobInv(graph, s.jobs, j);
    SetActCounts(s.jobs, j, job);
    JobReplaced(graph, s.jobs, j, job, s.jobs[j := job]);
    Cancel(Stacks(s.jobs[j := job]), Stacks(s.jobs), multiset([]));
  }

  lemma StartKeepsInv(graph: Graph, s: State, j: nat)
    requires Inv(graph, s) && j < |s.jobs| && !s.jobs[j].finished && s.jobs[j].act.Idle? && s.jobs[j].todo != []
    ensures Inv(graph, Start(s, j))
  {
    var r := Start(s, j);
    var job := r.jobs[j];
    var item := s.jobs[j].todo[0];
    assert JobInv(graph, s.jobs, j);
    assert item in s.jobs[j].todo && forall n :: n in s.jobs[j].todo[1..] ==> n in s.jobs[j].todo;
    SetActCounts(s.jobs, j, job);
    JobReplaced(graph, s.jobs, j, job, r.jobs);
    if item in s.visited {
      Cancel(Stacks(r.jobs), Stacks(s.jobs), multiset([]));
    } else {
      assert StackOf(job) == [] + [item];
      VisitOne(s, item, Stacks(s.jobs), Stacks(r.jobs), []);
    }
  }

  lemma FinishKeepsInv(graph: Graph, s: State, j: nat)
    requires Inv(graph, s) && j < |s.jobs| && !s.jobs[j].finished && s.jobs[j].act.Idle? && s.jobs[j].todo == []
    requires s.jobs[j].owner.Child? ==> s.jobs[j].owner.job < |s.jobs| && s.jobs[s.jobs[j].owner.job].act.Active?
    ensures Inv(graph, Finish(s, j))
  {
    var r := Finish(s, j);
    var done := s.jobs[j].(finished := true);
    var jobs := s.jobs[j := done];
    assert JobInv(graph, s.jobs, j);
    FinishJobs(graph, s.jobs, j);
    StacksUpdate(s.jobs, j, done);
    Cancel(Stacks(jobs), Stacks(s.jobs), multiset([]));
    if s.jobs[j].owner.Child? {
      var p := s.jobs[j].owner.job;
      StacksUpdate(jobs, p, r.jobs[p]);
      Cancel(Stacks(r.jobs), Stacks(jobs), multiset(StackOf(jobs[p])));
    }
  }

  lemma FinishJobs(graph: Graph, jobs: seq<Job>, j: nat)
    requires forall i :: 0 <= i < |jobs| ==> JobInv(graph, jobs, i)
    requires j < |jobs| && !jobs[j].finished && jobs[j].act.Idle? && jobs[j].todo == []
    requires jobs[j].owner.Child? ==> jobs[j].owner.job < |jobs| && jobs[jobs[j].owner.job].act.Active?
    ensures var r := Finish(State({}, [], jobs, 0, 0), j).jobs;
      && |r| == |jobs| && (forall i :: 0 <= i < |r| ==> JobInv(graph, r, i))
      && Open(r, Outer) == Open(jobs, Outer) - if jobs[j].owner == Outer then 1 else 0
  {
    var r := Finish(State({}, [], jobs, 0, 0), j).jobs;
    var done := jobs[j].(finished := true);
    forall o ensures Open(r, o) == Open(jobs, o) - if o == jobs[j].owner then 1 else 0 {
      OpenUpdate(jobs, j, done, o);
      if jobs[j].owner.Child? {
        OpenUpdate(jobs[j := done], jobs[j].owner.job, r[jobs[j].owner.job], o);
      }
    }
    assert JobInv(graph, jobs, j);
    forall i | 0 <= i < |r| ensures JobInv(graph, r, i) {
      assert JobInv(graph, jobs, i);
    }
  }

  /** Whatever job steps next, the invariant holds again. */
  lemma StepKeepsInv(graph: Graph, limit: nat, s: State, j: nat)
    requires Inv(graph, s) && Enabled(s, j)
    ensures Inv(graph, Step(graph, limit, s, j))
  {
    var job := s.jobs[j];
    assert JobInv(graph, s.jobs, j);
    if job.act.Active? {
      if job.act.pending != [] {
        SelectKeepsInv(graph, limit, s, j);
      } else if job.act.stack != [] {
        StacksBounded(graph, s, j);
        PopKeepsInv(graph, s, j);
      } else {
        LeaveKeepsInv(graph, s, j);
      }
    } else if job.todo != [] {
      StartKeepsInv(graph, s, j);
    } else {
      assert job.owner.Child? ==> JobInv(graph, s.jobs, job.owner.job);
      OwnerActive(s.jobs, j);
      FinishKeepsInv(graph, s, j);
    }
  }
}
