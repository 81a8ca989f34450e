/**
 What every run of the process pool guarantees: each job of the tree is handled and registered
 exactly once whatever the interleaving, parents are registered before their children, a lost job
 keeps the host from finishing, every run is finite, and only a closed pool has nothing left to do.
 */
module PoolRuns {
  import opened Jobs
  import opened Pool
  import opened Sums

  // ---- closing ----

  function IsSentinel(): Item -> nat {
    (x: Item) => if x.Sentinel? then 1 else 0
  }

  function Unreleased(): Worker -> nat {
    (w: Worker) => if w.Idle? || w.Busy? then 1 else 0
  }

  ghost predicate SomeDead(ws: seq<Worker>) {
    exists i :: 0 <= i < |ws| && ws[i].Dead?
  }

  function SentinelsOf(h: Host, n: nat): nat {
    match h
    case Quitting(k) => k
    case Draining => n
    case Closed => n
    case _ => 0
  }

  /** Nobody can take a second sentinel, and without deaths none is ever left over. */
  ghost predicate SentinelInv(s: State) {
    var queued, unreleased := Total(IsSentinel(), s.input), Total(Unreleased(), s.workers);
    var sent := SentinelsOf(s.host, |s.workers|);
    && queued + |s.workers| >= sent + unreleased
    && (!SomeDead(s.workers) ==> queued + |s.workers| == sent + unreleased)
  }

  /** After the input queue has been cleared it holds sentinels only. */
  ghost predicate OnlySentinels(s: State) {
    s.host.Quitting? || s.host.Draining? || s.host.Closed? ==> forall i :: 0 <= i < |s.input| ==> s.input[i].Sentinel?
  }

  ghost predicate AllGone(s: State) {
    forall i :: 0 <= i < |s.workers| ==> HasExited(s.workers[i])
  }

  /** No sentinel has been sent yet, so no worker is leaving. */
  ghost predicate NoSentinels(s: State) {
    && (forall k :: 0 <= k < |s.input| ==> s.input[k].Work?)
    && (forall k :: 0 <= k < |s.output| ==> s.output[k].Result?)
    && (forall k :: 0 <= k < |s.workers| ==> !s.workers[k].Leaving? && !s.workers[k].Exited?)
  }

  ghost predicate ShutdownInv(s: State) {
    && WellFormed(s)
    && (Running(s.host) || s.host.Clearing? ==> NoSentinels(s))
    && (!s.host.Terminated? ==> SentinelInv(s))
    && OnlySentinels(s)
    && (s.host.Raised? ==> SomeDead(s.workers))
    && (s.host.Closed? || s.host.Terminated? ==> AllGone(s))
  }

  lemma DeadStays(s: State, a: Action)
    requires Enabled(s, a) && SomeDead(s.workers)
    ensures SomeDead(Apply(s, a).workers)
  {
    var i :| 0 <= i < |s.workers| && s.workers[i].Dead?;
    assert Apply(s, a).workers[i].Dead?;
  }

  lemma SentinelByWorker(s: State, a: Action)
    requires ShutdownInv(s) && !s.host.Terminated? && Enabled(s, a) && (a.Take? || a.Put? || a.Die?)
    ensures SentinelInv(Apply(s, a))
  {
    var t := Apply(s, a);
    TotalUpdate(Unreleased(), s.workers, a.i, t.workers[a.i]);
    if SomeDead(s.workers) {
      DeadStays(s, a);
    }
    if a.Die? {
      assert t.workers[a.i].Dead?;
    }
  }

  lemma SentinelStep(s: State, a: Action)
    requires ShutdownInv(s) && Enabled(s, a) && !Apply(s, a).host.Terminated?
    ensures SentinelInv(Apply(s, a))
  {
    var t := Apply(s, a);
    if a.Take? || a.Put? || a.Die? {
      SentinelByWorker(s, a);
    } else if a.SubmitNext? || a.SendSentinel? {
      TotalAppend(IsSentinel(), s.input, t.input[|s.input|]);
    }
  }

  lemma ShutdownByWorker(s: State, a: Action)
    requires ShutdownInv(s) && Enabled(s, a) && (a.Take? || a.Put? || a.Die?)
    ensures ShutdownInv(Apply(s, a))
  {
    var t := Apply(s, a);
    if !s.host.Terminated? {
      SentinelStep(s, a);
    }
    if SomeDead(s.workers) {
      DeadStays(s, a);
    }
  }

  lemma ShutdownByHost(s: State, a: Action)
    requires ShutdownInv(s) && Enabled(s, a) && !a.Take? && !a.Put? && !a.Die?
    ensures ShutdownInv(Apply(s, a))
  {
    if !Apply(s, a).host.Terminated? {
      SentinelStep(s, a);
    }
  }

  lemma ShutdownStep(s: State, a: Action)
    requires ShutdownInv(s) && Enabled(s, a)
    ensures ShutdownInv(Apply(s, a))
  {
    if a.Take? || a.Put? || a.Die? {
      ShutdownByWorker(s, a);
    } else {
      ShutdownByHost(s, a);
    }
  }

  lemma StartShutdown(root: Job, processes: nat, capacity: nat)
    ensures ShutdownInv(Start(root, processes, capacity))
  {
    var s := Start(root, processes, capacity);
    TotalZero(IsSentinel(), s.input);
    TotalSame(Unreleased(), (_: Worker) => 1, s.workers, s.workers);
    OnePerWorker(s.workers);
  }

  lemma {:induction false} OnePerWorker(ws: seq<Worker>)
    ensures Total((_: Worker) => 1, ws) == |ws|
  {
    if ws != [] {
      OnePerWorker(ws[1..]);
    }
  }

  // ---- safety over whole runs ----

  /** The part of the invariant about `x` that closing the pool does not disturb. */
  ghost predicate SafeFor(root: Job, x: Job, s: State) {
    if Running(s.host) then RunInv(root, x, s)
    else
      && Causal(root, x, s.results)
      && Total(Is(x), s.results) <= Occurs(x)(root)
      && (s.host.Terminated? || Total(Is(x), s.results) == Occurs(x)(root))
  }

  lemma SafeStep(root: Job, x: Job, s: State, a: Action)
    requires SafeFor(root, x, s) && Enabled(s, a)
    ensures SafeFor(root, x, Apply(s, a))
  {
    if Running(s.host) {
      if a.BeginClose? {
        if s.host.Finished? {
          NothingLoaded(Occurs(x), s);
        }
      } else {
        RunStep(root, x, s, a);
      }
    }
  }

  /** No run ever puts more into the output pipe than it takes. */
  lemma {:induction false} PipeIsBounded(s: State, acts: seq<Action>, t: State)
    requires Run(s, acts, t) && |s.output| <= s.capacity
    ensures t.capacity == s.capacity && |t.output| <= t.capacity
    decreases |acts|
  {
    if acts != [] {
      PipeIsBounded(Apply(s, acts[0]), acts[1..], t);
    }
  }

  lemma {:induction false} RunIsSafe(root: Job, x: Job, s: State, acts: seq<Action>, t: State)
    requires SafeFor(root, x, s) && ShutdownInv(s) && Run(s, acts, t)
    ensures SafeFor(root, x, t) && ShutdownInv(t)
    decreases |acts|
  {
    if acts != [] {
      SafeStep(root, x, s, acts[0]);
      ShutdownStep(s, acts[0]);
      RunIsSafe(root, x, Apply(s, acts[0]), acts[1..], t);
    }
  }

  lemma RunFromStart(root: Job, x: Job, processes: nat, capacity: nat, acts: seq<Action>, t: State)
    requires Run(Start(root, processes, capacity), acts, t)
    ensures SafeFor(root, x, t) && ShutdownInv(t)
  {
    StartInv(root, x, processes, capacity);
    StartShutdown(root, processes, capacity);
    RunIsSafe(root, x, Start(root, processes, capacity), acts, t);
  }

  /** The receive loop has ended normally, so the pool is finished or being closed in an orderly way. */
  predicate EndedNormally(h: Host) {
    h.Finished? || h.Clearing? || h.Quitting? || h.Draining? || h.Closed?
  }

  /** Whatever the interleaving, a normal end has registered the same results as a single process. */
  lemma ScheduleIndependence(root: Job, processes: nat, capacity: nat, acts: seq<Action>, t: State)
    requires Run(Start(root, processes, capacity), acts, t) && EndedNormally(t.host)
    ensures multiset(t.results) == multiset(PostOrder(root))
  {
    forall x: Job
      ensures multiset(t.results)[x] == multiset(PostOrder(root))[x]
    {
      RunFromStart(root, x, processes, capacity, acts, t);
      EachRegistered(root, x, t);
    }
  }

  lemma EachRegistered(root: Job, x: Job, t: State)
    requires SafeFor(root, x, t) && EndedNormally(t.host)
    ensures multiset(t.results)[x] == multiset(PostOrder(root))[x]
  {
    if t.host.Finished? {
      NothingLoaded(Occurs(x), t);
    }
    TotalIsCount(x, t.results);
    TotalIsCount(x, PostOrder(root));
  }

  /** Result `k` was asked for by an earlier result. */
  ghost predicate HasEarlierParent(results: seq<Job>, k: nat)
    requires k < |results|
  {
    exists j :: 0 <= j < k && results[k] in results[j].subjobs
  }

  lemma FirstIsRoot(root: Job, results: seq<Job>)
    requires results != [] && Causal(root, results[0], results)
    ensures results[0] == root
  {
    assert results[..1] == [results[0]] && Children(results[..0]) == [];
    TotalOne(Is(results[0]), results[0]);
  }

  lemma LaterHasParent(root: Job, results: seq<Job>, k: nat)
    requires 0 < k < |results| && results[0] == root && Causal(root, results[k], results)
    ensures HasEarlierParent(results, k)
  {
    var x, before := results[k], results[..k];
    assert results[..k + 1] == before + [x];
    TotalAppend(Is(x), before, x);
    if x == root {
      TotalAtLeast(Is(x), before, 0);
    }
    assert Total(Is(x), Children(before)) > 0;
    TotalIsCount(x, Children(before));
    ChildHasParent(before, x);
    var j :| 0 <= j < |before| && x in before[j].subjobs;
    assert x in results[j].subjobs;
  }

  /** The first result is the root's, and every other one comes after a result that asked for it. */
  lemma ParentsFirst(root: Job, processes: nat, capacity: nat, acts: seq<Action>, t: State)
    requires Run(Start(root, processes, capacity), acts, t) && t.results != []
    ensures t.results[0] == root
    ensures forall k :: 0 < k < |t.results| ==> HasEarlierParent(t.results, k)
  {
    RunFromStart(root, t.results[0], processes, capacity, acts, t);
    FirstIsRoot(root, t.results);
    forall k | 0 < k < |t.results|
      ensures HasEarlierParent(t.results, k)
    {
      RunFromStart(root, t.results[k], processes, capacity, acts, t);
      LaterHasParent(root, t.results, k);
    }
  }

  /** A job that was lost with its worker keeps the counter positive: the loop never ends normally. */
  lemma LostJobBlocksTheEnd(root: Job, processes: nat, capacity: nat, acts: seq<Action>, t: State, i: nat)
    requires Run(Start(root, processes, capacity), acts, t)
    requires i < |t.workers| && t.workers[i].Dead? && t.workers[i].lost != [] && Running(t.host)
    ensures t.unfinished > 0 && !t.host.Finished?
  {
    RunFromStart(root, root, processes, capacity, acts, t);
    TotalAtLeast(InWorker(One()), t.workers, i);
    TotalOnes(t.workers[i].lost);
  }

  // ---- termination and progress ----

  function Size(): Weight { (j: Job) => |PostOrder(j)| }

  /** Steps still to come on account of a job whose result has been sent back. */
  function Budget(): Weight { (j: Job) => 5 + 8 * Total(Size(), j.subjobs) }

  function ItemRank(): Item -> nat { (x: Item) => if x.Sentinel? then 4 else 2 }

  function WorkerRank(): Worker -> nat {
    (w: Worker) => match w case Idle => 1 case Busy(_) => 2 case Leaving => 4 case Exited => 0 case Dead(_) => 0
  }

  function MessageRank(): Message -> nat { (m: Message) => if m.Bye? then 1 else 0 }

  function Ranks(s: State): nat {
    Total(ItemRank(), s.input) + Total(WorkerRank(), s.workers) + Total(MessageRank(), s.output)
  }

  ghost function HostRank(s: State): nat
    requires WellFormed(s)
  {
    var n := 5 * |s.workers|;
    match s.host
    case Submitting(_, _) => n + 9 + 8 * Total(Size(), Unsubmitted(s.host))
    case Registered => n + 8
    case Waiting => n + 6
    case Finished => n + 5
    case Raised => n + 5
    case Clearing => n + 4
    case Quitting(k) => n - 5 * k + 3
    case Draining => 2
    case Closed => 1
    case Terminated => 0
  }

  ghost function Measure(s: State): nat
    requires WellFormed(s)
  {
    Load(Budget(), s) + Ranks(s) + HostRank(s)
  }

  lemma {:induction false} SizeOfForest(js: seq<Job>)
    ensures Total(Size(), js) == |PostOrderAll(js)|
  {
    if js != [] {
      SizeOfForest(js[1..]);
    }
  }

  lemma BudgetOf(j: Job)
    ensures Budget()(j) + 3 == 8 * Size()(j)
  {
    SizeOfForest(j.subjobs);
  }

  lemma WorkerRanks(s: State, a: Action)
    requires Enabled(s, a) && (a.Take? || a.Put? || a.Die?)
    ensures Ranks(Apply(s, a)) < Ranks(s)
  {
    var t := Apply(s, a);
    TotalUpdate(WorkerRank(), s.workers, a.i, t.workers[a.i]);
    if a.Put? {
      TotalAppend(MessageRank(), s.output, t.output[|s.output|]);
    }
  }

  lemma WorkerDrops(s: State, a: Action)
    requires WellFormed(s) && Enabled(s, a) && (a.Take? || a.Put? || a.Die?)
    ensures WellFormed(Apply(s, a)) && Measure(Apply(s, a)) < Measure(s)
  {
    WorkerFlow(Budget(), s, a);
    WorkerRanks(s, a);
  }

  lemma SubmitDrops(s: State)
    requires WellFormed(s) && Enabled(s, SubmitNext)
    ensures WellFormed(Apply(s, SubmitNext)) && Measure(Apply(s, SubmitNext)) < Measure(s)
  {
    var t := Apply(s, SubmitNext);
    Flow(Budget(), s, SubmitNext);
    TotalAppend(ItemRank(), s.input, t.input[|s.input|]);
    BudgetOf(s.host.result.subjobs[s.host.next]);
    assert Unsubmitted(s.host)[1..] == Unsubmitted(t.host);
  }

  lemma SendDrops(s: State)
    requires WellFormed(s) && Enabled(s, SendSentinel)
    ensures WellFormed(Apply(s, SendSentinel)) && Measure(Apply(s, SendSentinel)) < Measure(s)
  {
    Flow(Budget(), s, SendSentinel);
    TotalAppend(ItemRank(), s.input, Sentinel);
  }

  lemma CloseDrops(s: State)
    requires WellFormed(s) && Enabled(s, BeginClose)
    ensures WellFormed(Apply(s, BeginClose)) && Measure(Apply(s, BeginClose)) < Measure(s)
  {
    var t := Apply(s, BeginClose);
    Flow(Budget(), s, BeginClose);
    if t.host.Terminated? {
      TotalZero(WorkerRank(), t.workers);
    }
  }

  /** Every action, of the host or of a worker, uses up some of the measure. */
  lemma MeasureDrops(s: State, a: Action)
    requires WellFormed(s) && Enabled(s, a)
    ensures WellFormed(Apply(s, a)) && Measure(Apply(s, a)) < Measure(s)
  {
    hide *;
    if a.Take? || a.Put? || a.Die? {
      WorkerDrops(s, a);
    } else if a.SubmitNext? {
      SubmitDrops(s);
    } else if a.BeginClose? {
      CloseDrops(s);
    } else if a.SendSentinel? {
      SendDrops(s);
    } else if a.Receive? {
      ReceiveDrops(s);
    } else {
      OtherDrops(s, a);
    }
  }

  lemma OtherDrops(s: State, a: Action)
    requires WellFormed(s) && Enabled(s, a)
    requires !a.Take? && !a.Put? && !a.Die? && !a.SubmitNext? && !a.BeginClose? && !a.SendSentinel? && !a.Receive?
    ensures WellFormed(Apply(s, a)) && Measure(Apply(s, a)) < Measure(s)
  {
    Flow(Budget(), s, a);
  }

  lemma ReceiveDrops(s: State)
    requires WellFormed(s) && Enabled(s, Receive)
    ensures WellFormed(Apply(s, Receive)) && Measure(Apply(s, Receive)) < Measure(s)
  {
    Flow(Budget(), s, Receive);
    assert Unsubmitted(Apply(s, Receive).host) == s.output[0].job.subjobs;
  }

  /** Every run is finite; its length is bounded by the measure of the state it starts in. */
  lemma {:induction false} RunsAreFinite(s: State, acts: seq<Action>, t: State)
    requires ShutdownInv(s) && Run(s, acts, t)
    ensures WellFormed(t) && |acts| + Measure(t) <= Measure(s)
    decreases |acts|
  {
    if acts != [] {
      ShutdownStep(s, acts[0]);
      MeasureDrops(s, acts[0]);
      RunsAreFinite(Apply(s, acts[0]), acts[1..], t);
    }
  }

  /** A host that is waiting for results can always go on: no interleaving leads to a deadlock. */
  lemma WhileWaiting(s: State) returns (a: Action)
    requires ShutdownInv(s) && Counted(s) && s.host.Waiting? && |s.workers| > 0 && s.capacity > 0
    ensures Enabled(s, a) && !a.Die?
  {
    TotalAtLeast(InWorker(One()), s.workers, 0);
    if s.unfinished == 0 {
      a := Exit;
    } else if s.output != [] {
      a := Receive;
    } else if SomeDead(s.workers) {
      a := Raise;
    } else if Total(InWorker(One()), s.workers) > 0 {
      var i := TotalPositive(InWorker(One()), s.workers);
      a := Put(i);
    } else {
      a := Take(0);
    }
  }

  /** While the output is drained, every worker that is still alive gets its sentinel and can leave. */
  lemma WhileDraining(s: State) returns (a: Action)
    requires ShutdownInv(s) && s.host.Draining? && s.capacity > 0
    ensures Enabled(s, a) && !a.Die?
  {
    if s.output != [] {
      a := DrainOne;
    } else if AllGone(s) {
      a := DrainDone;
    } else {
      var i :| 0 <= i < |s.workers| && !HasExited(s.workers[i]);
      if s.workers[i].Idle? {
        TotalAtLeast(Unreleased(), s.workers, i);
        a := Take(i);
      } else {
        a := Put(i);
      }
    }
  }

  /** The pool has something to do until it is closed, however the processes were scheduled or killed. */
  lemma SomethingToDo(s: State) returns (a: Action)
    requires ShutdownInv(s) && (Running(s.host) ==> Counted(s)) && |s.workers| > 0 && s.capacity > 0
    requires !s.host.Closed? && !s.host.Terminated?
    ensures Enabled(s, a) && !a.Die?
  {
    match s.host
    case Waiting => a := WhileWaiting(s);
    case Submitting(r, k) => a := if k < |r.subjobs| then SubmitNext else Register;
    case Registered => a := TaskDone;
    case Finished => a := BeginClose;
    case Raised => a := BeginClose;
    case Clearing => a := if s.input != [] then ClearOne else ClearDone;
    case Quitting(k) => a := if k < |s.workers| then SendSentinel else SentinelsSent;
    case Draining => a := WhileDraining(s);
  }

  lemma StuckMeansClosed(s: State)
    requires ShutdownInv(s) && (Running(s.host) ==> Counted(s)) && |s.workers| > 0 && s.capacity > 0 && Stuck(s)
    ensures s.host.Closed? || s.host.Terminated?
  {
    if !s.host.Closed? && !s.host.Terminated? {
      var a := SomethingToDo(s);
    }
  }

  ghost predicate NobodyDied(s: State) {
    !SomeDead(s.workers) && !s.host.Raised? && !s.host.Terminated?
  }

  lemma {:induction false} NoDeathsNobodyDied(s: State, acts: seq<Action>, t: State)
    requires ShutdownInv(s) && NobodyDied(s) && NoDeaths(acts) && Run(s, acts, t)
    ensures NobodyDied(t)
    decreases |acts|
  {
    if acts != [] {
      var s' := Apply(s, acts[0]);
      ShutdownStep(s, acts[0]);
      assert !acts[0].Die?;
      NobodyDiedStep(s, acts[0]);
      NoDeathsNobodyDied(s', acts[1..], t);
    }
  }

  lemma NobodyDiedStep(s: State, a: Action)
    requires ShutdownInv(s) && NobodyDied(s) && Enabled(s, a) && !a.Die?
    ensures NobodyDied(Apply(s, a))
  {
  }

  lemma {:induction false} RunFrame(s: State, acts: seq<Action>, t: State)
    requires Run(s, acts, t)
    ensures |t.workers| == |s.workers| && t.capacity == s.capacity
    decreases |acts|
  {
    if acts != [] {
      RunFrame(Apply(s, acts[0]), acts[1..], t);
    }
  }

  /**
   A run in which no process is killed and that cannot be continued has handled and registered the
   whole tree exactly once; the pool is closed, every worker has taken its sentinel and exited, and
   no sentinel is left.
   */
  lemma MaximalRunsComplete(root: Job, processes: nat, capacity: nat, acts: seq<Action>, t: State)
    requires processes > 0 && capacity > 0
    requires Run(Start(root, processes, capacity), acts, t) && NoDeaths(acts) && Stuck(t)
    ensures t.host.Closed?
    ensures multiset(t.results) == multiset(PostOrder(root))
    ensures |t.workers| == processes && forall i :: 0 <= i < processes ==> t.workers[i].Exited?
    ensures t.input == []
  {
    var s := Start(root, processes, capacity);
    RunFromStart(root, root, processes, capacity, acts, t);
    StartShutdown(root, processes, capacity);
    NoDeathsNobodyDied(s, acts, t);
    RunFrame(s, acts, t);
    StuckMeansClosed(t);
    ScheduleIndependence(root, processes, capacity, acts, t);
    NothingLeft(t);
  }

  lemma NothingLeft(s: State)
    requires ShutdownInv(s) && NobodyDied(s) && s.host.Closed?
    ensures s.input == []
  {
    if s.input != [] {
      TotalAtLeast(IsSentinel(), s.input, 0);
    }
    TotalZero(Unreleased(), s.workers);
  }

  /** With deaths, a run that cannot be continued has closed the pool; if a job was lost, by force. */
  lemma MaximalRunsWithDeaths(root: Job, processes: nat, capacity: nat, acts: seq<Action>, t: State)
    requires processes > 0 && capacity > 0
    requires Run(Start(root, processes, capacity), acts, t) && Stuck(t)
    ensures t.host.Closed? || t.host.Terminated?
    ensures t.host.Closed? ==> multiset(t.results) == multiset(PostOrder(root))
    ensures forall i :: 0 <= i < |t.workers| ==> HasExited(t.workers[i])
  {
    RunFromStart(root, root, processes, capacity, acts, t);
    RunFrame(Start(root, processes, capacity), acts, t);
    StuckMeansClosed(t);
    if t.host.Closed? {
      ScheduleIndependence(root, processes, capacity, acts, t);
    }
  }
}
