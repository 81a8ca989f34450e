/**
 The two pools as the objects the program works with.  The host's code is written out step by step;
 worker processes take any steps they like whenever the host waits or is interrupted.
 */
module Pools {
  import opened Jobs
  import opened Pool
  import opened PoolRuns

  /** Handles a task in the calling process; the callback submits its subtasks before it registers it. */
  class SinglePool {
    var results: seq<Job>

    constructor ()
      ensures results == []
    {
      results := [];
    }

    method Submit(job: Job)
      modifies this
      ensures results == old(results) + PostOrder(job)
      decreases job, 1
    {
      ProcessResult(job);
    }

    method ProcessResult(result: Job)
      modifies this
      ensures results == old(results) + PostOrder(result)
      decreases result, 0
    {
      var subjobs := result.subjobs;
      for k := 0 to |subjobs|
        invariant results == old(results) + PostOrderAll(subjobs[..k])
      {
        Submit(subjobs[k]);
        assert subjobs[..k + 1] == subjobs[..k] + [subjobs[k]];
        PostOrderAppend(subjobs[..k], subjobs[k]);
      }
      assert subjobs[..|subjobs|] == subjobs;
      results := results + [result];
    }
  }

  lemma {:induction false} PostOrderAppend(js: seq<Job>, j: Job)
    ensures PostOrderAll(js + [j]) == PostOrderAll(js) + PostOrder(j)
  {
    if js == [] {
      assert PostOrderAll([j][1..]) == [];
    } else {
      PostOrderAppend(js[1..], j);
      assert (js + [j])[1..] == js[1..] + [j];
    }
  }

  /** The state is one that a run over the tree of `root` can lead to. */
  ghost predicate Reachable(root: Job, s: State) {
    exists acts :: Run(Start(root, |s.workers|, s.capacity), acts, s)
  }

  lemma {:induction false} RunAppend(s: State, acts: seq<Action>, t: State, a: Action)
    requires Run(s, acts, t) && Enabled(t, a)
    ensures Run(s, acts + [a], Apply(t, a))
    decreases |acts|
  {
    if acts == [] {
      assert Run(Apply(t, a), [a][1..], Apply(t, a));
    } else {
      RunAppend(Apply(s, acts[0]), acts[1..], t, a);
      assert (acts + [a])[1..] == acts[1..] + [a];
    }
  }

  lemma ReachableFacts(root: Job, s: State)
    requires Reachable(root, s)
    ensures ShutdownInv(s) && (Running(s.host) ==> Counted(s))
    ensures EndedNormally(s.host) ==> multiset(s.results) == multiset(PostOrder(root))
  {
    var acts :| Run(Start(root, |s.workers|, s.capacity), acts, s);
    RunFromStart(root, root, |s.workers|, s.capacity, acts, s);
    if EndedNormally(s.host) {
      ScheduleIndependence(root, |s.workers|, s.capacity, acts, s);
    }
  }

  /** A pool that simulates enabled actions stays reachable and uses up its measure. */
  lemma Simulates(root: Job, s: State, a: Action, t: State)
    requires Reachable(root, s) && Enabled(s, a) && t == Apply(s, a)
    ensures Reachable(root, t) && WellFormed(s) && WellFormed(t) && Measure(t) < Measure(s)
  {
    var acts :| Run(Start(root, |s.workers|, s.capacity), acts, s);
    RunAppend(Start(root, |s.workers|, s.capacity), acts, s, a);
    assert |t.workers| == |s.workers| && t.capacity == s.capacity;
    ReachableFacts(root, s);
    ShutdownStep(s, a);
    MeasureDrops(s, a);
  }

  class MultiPool {
    const capacity: nat
    var running: bool
    var input: seq<Item>
    var unfinished: nat
    var workers: seq<Worker>
    var output: seq<Message>
    var results: seq<Job>

    /** The state of the pool when the host has got as far as `host`. */
    function At(host: Host): State
      reads this
    {
      State(input, unfinished, workers, output, capacity, host, results)
    }

    ghost predicate Ready(root: Job, host: Host)
      reads this
    {
      Reachable(root, At(host)) && WellFormed(At(host)) && |workers| > 0 && capacity > 0
    }

    constructor (processes: nat, capacity: nat)
      requires processes > 0
      ensures running && workers == seq(processes, _ => Idle) && this.capacity == capacity
      ensures input == [] && output == [] && results == [] && unfinished == 0
    {
      this.capacity := capacity;
      running := true;
      input, unfinished, output, results := [], 0, [], [];
      workers := seq(processes, _ => Idle);
    }

    method Submit(job: Job)
      modifies this`input, this`unfinished
      ensures input == old(input) + [Work(job)] && unfinished == old(unfinished) + 1
    {
      input := input + [Work(job)];
      unfinished := unfinished + 1;
    }

    /** One step of a worker process, or its death. */
    method WorkerStep(a: Action, ghost host: Host)
      requires Enabled(At(host), a) && (a.Take? || a.Put? || a.Die?)
      modifies this`input, this`workers, this`output
      ensures At(host) == Apply(old(At(host)), a)
    {
      match a
      case Take(i) =>
        workers := workers[i := match input[0] case Work(j) => Busy(j) case Sentinel => Leaving];
        input := input[1..];
      case Put(i) =>
        output := output + [if workers[i].Busy? then Result(workers[i].job) else Bye];
        workers := workers[i := if workers[i].Busy? then Idle else Exited];
      case Die(i) =>
        workers := workers[i := Dead(HeldBy(workers[i]))];
    }

    method EnvironmentStep(a: Action, ghost root: Job, ghost host: Host)
      requires Ready(root, host) && Enabled(At(host), a) && (a.Take? || a.Put? || a.Die?)
      modifies this`input, this`workers, this`output
      ensures Ready(root, host) && Measure(At(host)) < old(Measure(At(host)))
      ensures |workers| == |old(workers)|
    {
      ghost var s := At(host);
      WorkerStep(a, host);
      Simulates(root, s, a, At(host));
    }

    /** The worker processes run for a while. */
    method Others(ghost root: Job, ghost host: Host)
      requires Ready(root, host)
      modifies this`input, this`workers, this`output
      ensures Ready(root, host) && Measure(At(host)) <= old(Measure(At(host)))
      ensures |workers| == |old(workers)|
    {
      while *
        invariant Ready(root, host) && Measure(At(host)) <= old(Measure(At(host)))
        invariant |workers| == |old(workers)|
        decreases Measure(At(host))
      {
        var a: Action := *;
        if a.Take? && 0 <= a.i < |workers| && workers[a.i].Idle? && input != [] {
          EnvironmentStep(a, root, host);
        } else if a.Put? && 0 <= a.i < |workers| && (workers[a.i].Busy? || workers[a.i].Leaving?)
                  && |output| < capacity {
          EnvironmentStep(a, root, host);
        } else if a.Die? && 0 <= a.i < |workers| && Alive(workers[a.i]) {
          EnvironmentStep(a, root, host);
        } else {
          break;
        }
      }
    }

    /** Blocks until the output can be read or the given condition on the processes holds. */
    method WaitForResult(ghost root: Job) returns (died: bool)
      requires Ready(root, Waiting) && unfinished != 0
      modifies this`input, this`workers, this`output
      ensures Ready(root, Waiting) && Measure(At(Waiting)) <= old(Measure(At(Waiting)))
      ensures died ==> SomeDead(workers)
      ensures !died ==> output != []
    {
      Others(root, Waiting);
      while output == [] && !SomeoneDied()
        invariant Ready(root, Waiting) && Measure(At(Waiting)) <= old(Measure(At(Waiting)))
        decreases Measure(At(Waiting))
      {
        SomeWorkerStep(root);
        Others(root, Waiting);
      }
      died := SomeoneDied();
    }

    /** With jobs in flight, nothing to read and nobody dead, some worker has a step to take. */
    method SomeWorkerStep(ghost root: Job)
      requires Ready(root, Waiting) && unfinished != 0 && output == [] && !SomeDead(workers)
      modifies this`input, this`workers, this`output
      ensures Ready(root, Waiting) && Measure(At(Waiting)) < old(Measure(At(Waiting)))
    {
      ReachableFacts(root, At(Waiting));
      ghost var next := WhileWaiting(At(Waiting));
      var a: Action :| (a.Take? || a.Put?) && Enabled(At(Waiting), a);
      EnvironmentStep(a, root, Waiting);
    }

    predicate SomeoneDied()
      reads this`workers
    {
      exists i :: 0 <= i < |workers| && workers[i].Dead?
    }

    predicate EveryoneLeft()
      reads this`workers
    {
      forall i :: 0 <= i < |workers| ==> HasExited(workers[i])
    }

    method SubmitSubtask(result: Job, k: nat, ghost root: Job)
      requires k < |result.subjobs| && Ready(root, Submitting(result, k))
      modifies this`input, this`unfinished, this`workers, this`output
      ensures Ready(root, Submitting(result, k + 1))
      ensures Measure(At(Submitting(result, k + 1))) < old(Measure(At(Submitting(result, k))))
    {
      hide Reachable, Measure;
      Others(root, Submitting(result, k));
      ghost var s := At(Submitting(result, k));
      Submit(result.subjobs[k]);
      Simulates(root, s, SubmitNext, At(Submitting(result, k + 1)));
    }

    /** The result callback: submit the subtasks, then register the result. */
    method ProcessResult(result: Job, ghost root: Job)
      requires Ready(root, Submitting(result, 0))
      modifies this`input, this`unfinished, this`workers, this`output, this`results
      ensures Ready(root, Registered)
      ensures results == old(results) + [result]
      ensures Measure(At(Registered)) < old(Measure(At(Submitting(result, 0))))
    {
      for k := 0 to |result.subjobs|
        invariant Ready(root, Submitting(result, k)) && results == old(results)
        invariant Measure(At(Submitting(result, k))) <= old(Measure(At(Submitting(result, 0))))
      {
        SubmitSubtask(result, k, root);
      }
      ghost var s := At(Submitting(result, |result.subjobs|));
      results := results + [result];
      Simulates(root, s, Register, At(Registered));
    }

    /**
     The host's receive loop.  It ends normally only when every job of the tree has been registered,
     exactly once; otherwise it raises because a worker process died.
     */
    method ProcessUntilDone(ghost root: Job) returns (raised: bool)
      requires Ready(root, Waiting)
      modifies this`input, this`unfinished, this`workers, this`output, this`results
      ensures Ready(root, if raised then Raised else Finished)
      ensures !raised ==> multiset(results) == multiset(PostOrder(root)) && unfinished == 0
      ensures raised ==> SomeDead(workers)
    {
      while unfinished != 0
        invariant Ready(root, Waiting)
        decreases Measure(At(Waiting))
      {
        var died := WaitForResult(root);
        if died {
          Simulates(root, At(Waiting), Raise, At(Raised));
          return true;
        }
        var result := GetResult(root);
        ProcessResult(result, root);
        TaskDone(root);
      }
      Simulates(root, At(Waiting), Exit, At(Finished));
      ReachableFacts(root, At(Finished));
      raised := false;
    }

    method GetResult(ghost root: Job) returns (result: Job)
      requires Ready(root, Waiting) && unfinished != 0 && output != []
      modifies this`output
      ensures Ready(root, Submitting(result, 0))
      ensures Measure(At(Submitting(result, 0))) < old(Measure(At(Waiting)))
    {
      ReachableFacts(root, At(Waiting));
      ghost var s := At(Waiting);
      result := output[0].job;
      output := output[1..];
      Simulates(root, s, Receive, At(Submitting(result, 0)));
    }

    method TaskDone(ghost root: Job)
      requires Ready(root, Registered)
      modifies this`unfinished
      ensures Ready(root, Waiting) && Measure(At(Waiting)) < old(Measure(At(Registered)))
    {
      ReachableFacts(root, At(Registered));
      ghost var s := At(Registered);
      unfinished := unfinished - 1;
      Simulates(root, s, Action.TaskDone, At(Waiting));
    }

    // ---- close ----

    /**
     Ends the pool.  After a normal run every worker still alive has been given one sentinel and has
     left; otherwise the processes are terminated.  Closing twice does nothing.
     */
    method Close(immediate: bool, ghost root: Job)
      requires running ==> Ready(root, if immediate then Raised else Finished)
      modifies this
      ensures !running && results == old(results)
      ensures old(running) && (immediate || old(SomeoneLeft())) ==>
                workers == Kill(old(workers)) && input == old(input) && output == old(output)
      ensures old(running) ==> |workers| == |old(workers)| && AllLeft(workers)
      ensures old(running) && !immediate && !SomeDead(workers) ==>
                input == [] && forall i :: 0 <= i < |workers| ==> workers[i].Exited?
    {
      if !running {
        return;
      }
      running := false;
      var forced := immediate || SomeoneLeft();
      if forced {
        Terminate(root, immediate);
      } else {
        Simulates(root, At(Finished), BeginClose, At(Clearing));
        ClearInputQueue(root);
        RequestWorkersToQuit(root);
        ClearOutputQueue(root);
        ReachableFacts(root, At(Closed));
        if !SomeDead(workers) {
          NothingLeft(At(Closed));
        }
      }
    }

    predicate SomeoneLeft()
      reads this`workers
    {
      exists i :: 0 <= i < |workers| && HasExited(workers[i])
    }

    method Terminate(ghost root: Job, immediate: bool)
      requires Ready(root, if immediate then Raised else Finished) && (immediate || SomeoneLeft())
      modifies this`workers
      ensures workers == Kill(old(workers)) && AllLeft(workers)
      ensures !immediate ==> SomeDead(workers)
    {
      ReachableFacts(root, At(if immediate then Raised else Finished));
      ghost var was := workers;
      workers := Kill(workers);
      if !immediate {
        ghost var i :| 0 <= i < |was| && HasExited(was[i]);
        assert workers[i].Dead?;
      }
    }

    method ClearInputQueue(ghost root: Job)
      requires Ready(root, Clearing)
      modifies this`input, this`workers, this`output
      ensures Ready(root, Quitting(0)) && |workers| == |old(workers)|
    {
      while input != []
        invariant Ready(root, Clearing) && |workers| == |old(workers)|
        decreases Measure(At(Clearing))
      {
        ghost var s := At(Clearing);
        input := input[1..];
        Simulates(root, s, ClearOne, At(Clearing));
        Others(root, Clearing);
      }
      Simulates(root, At(Clearing), ClearDone, At(Quitting(0)));
    }

    method RequestWorkersToQuit(ghost root: Job)
      requires Ready(root, Quitting(0))
      modifies this`input, this`unfinished, this`workers, this`output
      ensures Ready(root, Quitting(|workers|)) && |workers| == |old(workers)|
    {
      var processes := |workers|;
      for k := 0 to processes
        invariant Ready(root, Quitting(k)) && |workers| == processes
      {
        SendSentinel(root, k);
      }
    }

    method SendSentinel(ghost root: Job, k: nat)
      requires Ready(root, Quitting(k)) && k < |workers|
      modifies this`input, this`unfinished, this`workers, this`output
      ensures Ready(root, Quitting(k + 1)) && |workers| == |old(workers)|
    {
      ghost var s := At(Quitting(k));
      input := input + [Sentinel];
      unfinished := unfinished + 1;
      Simulates(root, s, Action.SendSentinel, At(Quitting(k + 1)));
      Others(root, Quitting(k + 1));
    }

    /** Reads the output until every process has gone, so that no worker blocks on a full pipe. */
    method ClearOutputQueue(ghost root: Job)
      requires Ready(root, Quitting(|workers|))
      modifies this`input, this`workers, this`output
      ensures Ready(root, Closed) && |workers| == |old(workers)| && AllLeft(workers)
    {
      Simulates(root, At(Quitting(|workers|)), SentinelsSent, At(Draining));
      while !EveryoneLeft()
        invariant Ready(root, Draining) && |workers| == |old(workers)|
        decreases Measure(At(Draining))
      {
        if output != [] {
          ghost var s := At(Draining);
          output := output[1..];
          Simulates(root, s, DrainOne, At(Draining));
        } else {
          SomeWorkerLeaves(root);
        }
        Others(root, Draining);
      }
      Simulates(root, At(Draining), DrainDone, At(Closed));
    }

    /** With nothing to read and a process still alive, some worker has a step to take. */
    method SomeWorkerLeaves(ghost root: Job)
      requires Ready(root, Draining) && output == [] && !EveryoneLeft()
      modifies this`input, this`workers, this`output
      ensures Ready(root, Draining) && Measure(At(Draining)) < old(Measure(At(Draining)))
      ensures |workers| == |old(workers)|
    {
      ReachableFacts(root, At(Draining));
      ghost var next := WhileDraining(At(Draining));
      var a: Action :| (a.Take? || a.Put?) && Enabled(At(Draining), a);
      EnvironmentStep(a, root, Draining);
    }
  }

  ghost predicate AllLeft(ws: seq<Worker>) {
    forall i :: 0 <= i < |ws| ==> HasExited(ws[i])
  }

  /** Processes a task and everything that comes out of it; `done` is false when a worker process died. */
  method ProcessTask(root: Job, processes: nat, capacity: nat) returns (done: bool, results: seq<Job>)
    requires processes > 0 && capacity > 0
    ensures done ==> multiset(results) == multiset(PostOrder(root))
    ensures done && processes == 1 ==> results == PostOrder(root)
    ensures processes == 1 ==> done
  {
    if processes == 1 {
      var pool := new SinglePool();
      pool.Submit(root);
      return true, pool.results;
    }
    var pool := new MultiPool(processes, capacity);
    pool.Submit(root);
    assert pool.At(Waiting) == Start(root, processes, capacity);
    assert Run(pool.At(Waiting), [], pool.At(Waiting));
    var raised := pool.ProcessUntilDone(root);
    pool.Close(raised, root);
    return !raised, pool.results;
  }
}
