/**
 The process pool as a transition system: one host, any number of worker processes, a joinable
 input queue with a counter of unfinished items, and an output pipe of bounded capacity.

 A run is any sequence of enabled actions, so a statement about all runs is a statement about all
 interleavings of the host with the workers, including worker deaths.
 */
module Pool {
  import opened Jobs
  import opened Sums

  /** What a worker process is doing.  `Dead` keeps the job that was lost with the process, if any. */
  datatype Worker = Idle | Busy(job: Job) | Leaving | Exited | Dead(lost: seq<Job>)

  datatype Item = Work(job: Job) | Sentinel

  datatype Message = Result(job: Job) | Bye

  /** Where the host is: in the receive loop, inside the result callback, or in `close`. */
  datatype Host =
    | Waiting
    | Submitting(result: Job, next: nat)
    | Registered
    | Finished
    | Raised
    | Clearing
    | Quitting(sent: nat)
    | Draining
    | Closed
    | Terminated

  datatype State = State(
    input: seq<Item>,
    unfinished: nat,
    workers: seq<Worker>,
    output: seq<Message>,
    capacity: nat,
    host: Host,
    results: seq<Job>)

  datatype Action =
    | Take(i: nat)
    | Put(i: nat)
    | Die(i: nat)
    | Receive
    | SubmitNext
    | Register
    | Exit
    | TaskDone
    | Raise
    | BeginClose
    | ClearOne
    | ClearDone
    | SendSentinel
    | SentinelsSent
    | DrainOne
    | DrainDone

  predicate Running(h: Host) {
    h.Waiting? || h.Submitting? || h.Registered? || h.Finished? || h.Raised?
  }

  predicate HasExited(w: Worker) {
    w.Exited? || w.Dead?
  }

  predicate Alive(w: Worker) {
    !HasExited(w)
  }

  predicate Enabled(s: State, a: Action) {
    match a
    case Take(i) => i < |s.workers| && s.workers[i].Idle? && s.input != []
    case Put(i) => i < |s.workers| && (s.workers[i].Busy? || s.workers[i].Leaving?) && |s.output| < s.capacity
    case Die(i) => i < |s.workers| && Alive(s.workers[i])
    case Receive => s.host.Waiting? && s.unfinished != 0 && s.output != [] && s.output[0].Result?
    case SubmitNext => s.host.Submitting? && s.host.next < |s.host.result.subjobs|
    case Register => s.host.Submitting? && s.host.next == |s.host.result.subjobs|
    case TaskDone => s.host.Registered? && s.unfinished != 0
    case Exit => s.host.Waiting? && s.unfinished == 0
    case Raise => s.host.Waiting? && s.unfinished != 0 && exists i :: 0 <= i < |s.workers| && s.workers[i].Dead?
    case BeginClose => s.host.Finished? || s.host.Raised?
    case ClearOne => s.host.Clearing? && s.input != []
    case ClearDone => s.host.Clearing? && s.input == []
    case SendSentinel => s.host.Quitting? && s.host.sent < |s.workers|
    case SentinelsSent => s.host.Quitting? && s.host.sent == |s.workers|
    case DrainOne => s.host.Draining? && s.output != []
    case DrainDone => s.host.Draining? && forall i :: 0 <= i < |s.workers| ==> HasExited(s.workers[i])
  }

  /** The job that is lost when a process in state `w` goes away. */
  function HeldBy(w: Worker): seq<Job> {
    match w
    case Busy(j) => [j]
    case Dead(lost) => lost
    case _ => []
  }

  function Kill(ws: seq<Worker>): seq<Worker> {
    seq(|ws|, i requires 0 <= i < |ws| => if ws[i].Exited? then ws[i] else Dead(HeldBy(ws[i])))
  }

  function Apply(s: State, a: Action): State
    requires Enabled(s, a)
  {
    match a
    case Take(i) =>
      s.(input := s.input[1..],
         workers := s.workers[i := match s.input[0] case Work(j) => Busy(j) case Sentinel => Leaving])
    case Put(i) =>
      if s.workers[i].Busy?
      then s.(output := s.output + [Result(s.workers[i].job)], workers := s.workers[i := Idle])
      else s.(output := s.output + [Bye], workers := s.workers[i := Exited])
    case Die(i) => s.(workers := s.workers[i := Dead(HeldBy(s.workers[i]))])
    case Receive => s.(output := s.output[1..], host := Submitting(s.output[0].job, 0))
    case SubmitNext =>
      s.(input := s.input + [Work(s.host.result.subjobs[s.host.next])], unfinished := s.unfinished + 1,
         host := Submitting(s.host.result, s.host.next + 1))
    case Register => s.(results := s.results + [s.host.result], host := Registered)
    case TaskDone => s.(unfinished := s.unfinished - 1, host := Waiting)
    case Exit => s.(host := Finished)
    case Raise => s.(host := Raised)
    case BeginClose =>
      if s.host.Raised? || exists i :: 0 <= i < |s.workers| && HasExited(s.workers[i])
      then s.(workers := Kill(s.workers), host := Terminated)
      else s.(host := Clearing)
    case ClearOne => s.(input := s.input[1..])
    case ClearDone => s.(host := Quitting(0))
    case SendSentinel =>
      s.(input := s.input + [Sentinel], unfinished := s.unfinished + 1, host := Quitting(s.host.sent + 1))
    case SentinelsSent => s.(host := Draining)
    case DrainOne => s.(output := s.output[1..])
    case DrainDone => s.(host := Closed)
  }

  /** The pool after `start()` and the submission of the root task. */
  function Start(root: Job, processes: nat, capacity: nat): State {
    State([Work(root)], 1, seq(processes, _ => Idle), [], capacity, Waiting, [])
  }

  ghost predicate Run(s: State, acts: seq<Action>, t: State)
    decreases |acts|
  {
    if acts == [] then s == t else Enabled(s, acts[0]) && Run(Apply(s, acts[0]), acts[1..], t)
  }

  /** No action is possible any more, except that a process may still be killed. */
  ghost predicate Stuck(s: State) {
    forall a: Action :: Enabled(s, a) ==> a.Die?
  }

  predicate NoDeaths(acts: seq<Action>) {
    forall k :: 0 <= k < |acts| ==> !acts[k].Die?
  }

  /** The counter of the input queue counts what is put, and one less for every result that is done with. */
  lemma CounterStep(s: State, a: Action)
    requires Enabled(s, a)
    ensures Apply(s, a).unfinished ==
            s.unfinished + (if |Apply(s, a).input| > |s.input| then 1 else 0) - (if a.TaskDone? then 1 else 0)
  {
  }

  /** A pool in which a worker is gone, or in which the host raised, is terminated and not drained. */
  lemma ClosingStep(s: State, i: nat)
    requires Enabled(s, BeginClose) && i < |s.workers|
    ensures HasExited(s.workers[i]) || s.host.Raised? ==>
              Apply(s, BeginClose).host == Terminated && HasExited(Apply(s, BeginClose).workers[i])
    ensures Apply(s, BeginClose).host == Terminated ==>
              s.host.Raised? || exists k :: 0 <= k < |s.workers| && HasExited(s.workers[k])
  {
  }

  // ---- the jobs that have been submitted and whose results have not been received ----

  function InItem(f: Weight): Item -> nat {
    (x: Item) => match x case Work(j) => f(j) case Sentinel => 0
  }

  function InWorker(f: Weight): Worker -> nat {
    (w: Worker) => Total(f, HeldBy(w))
  }

  function InMessage(f: Weight): Message -> nat {
    (m: Message) => match m case Result(j) => f(j) case Bye => 0
  }

  /** The total weight of the jobs that are queued, held by a worker (or lost with it), or sent back. */
  function Load(f: Weight, s: State): nat {
    Total(InItem(f), s.input) + Total(InWorker(f), s.workers) + Total(InMessage(f), s.output)
  }

  /** What an action adds to the weight of the jobs in flight. */
  function Gain(f: Weight, s: State, a: Action): int
    requires Enabled(s, a)
  {
    match a
    case Receive => 0 - f(s.output[0].job)
    case SubmitNext => f(s.host.result.subjobs[s.host.next])
    case ClearOne => 0 - InItem(f)(s.input[0])
    case DrainOne => 0 - InMessage(f)(s.output[0])
    case _ => 0
  }

  lemma WorkerFlow(f: Weight, s: State, a: Action)
    requires Enabled(s, a) && (a.Take? || a.Put? || a.Die?)
    ensures Load(f, Apply(s, a)) == Load(f, s)
  {
    var t := Apply(s, a);
    TotalUpdate(InWorker(f), s.workers, a.i, t.workers[a.i]);
    if a.Take? && s.input[0].Work? {
      TotalOne(f, s.input[0].job);
    }
    if a.Put? {
      TotalAppend(InMessage(f), s.output, t.output[|s.output|]);
      if s.workers[a.i].Busy? {
        TotalOne(f, s.workers[a.i].job);
      }
    }
  }

  /** Jobs enter and leave the flight only when the host says so, whatever the workers do. */
  lemma Flow(f: Weight, s: State, a: Action)
    requires Enabled(s, a)
    ensures Load(f, Apply(s, a)) == Load(f, s) + Gain(f, s, a)
  {
    var t := Apply(s, a);
    if a.Take? || a.Put? || a.Die? {
      WorkerFlow(f, s, a);
    } else if a.SubmitNext? || a.SendSentinel? {
      TotalAppend(InItem(f), s.input, t.input[|s.input|]);
    } else if a.BeginClose? {
      TotalSame(InWorker(f), InWorker(f), s.workers, t.workers);
    }
  }

  lemma NothingLoaded(f: Weight, s: State)
    requires Load(One(), s) == 0
    ensures Load(f, s) == 0
  {
    forall i | 0 <= i < |s.input| ensures InItem(f)(s.input[i]) == 0 {
      TotalAtLeast(InItem(One()), s.input, i);
    }
    forall i | 0 <= i < |s.workers| ensures InWorker(f)(s.workers[i]) == 0 {
      TotalAtLeast(InWorker(One()), s.workers, i);
    }
    forall i | 0 <= i < |s.output| ensures InMessage(f)(s.output[i]) == 0 {
      TotalAtLeast(InMessage(One()), s.output, i);
    }
    TotalZero(InItem(f), s.input);
    TotalZero(InWorker(f), s.workers);
    TotalZero(InMessage(f), s.output);
  }

  // ---- the invariant of every run, deaths included, as seen by one job `x` ----

  ghost predicate WellFormed(s: State) {
    && (s.host.Submitting? ==> s.host.next <= |s.host.result.subjobs|)
    && (s.host.Quitting? ==> s.host.sent <= |s.workers|)
  }

  /** The job whose result the host is processing. */
  function Received(h: Host): seq<Job> {
    if h.Submitting? then [h.result] else []
  }

  /** Its subjobs that have been submitted so far. */
  function Submitted(h: Host): seq<Job> {
    if h.Submitting? && h.next <= |h.result.subjobs| then h.result.subjobs[..h.next] else []
  }

  /** Its subjobs that have yet to be submitted. */
  function Unsubmitted(h: Host): seq<Job> {
    if h.Submitting? && h.next <= |h.result.subjobs| then h.result.subjobs[h.next..] else []
  }

  /** The counter of the joinable queue: one per job in flight, plus the one being processed. */
  ghost predicate Counted(s: State) {
    s.unfinished == Load(One(), s) + (if s.host.Submitting? || s.host.Registered? then 1 else 0)
  }

  /** Each occurrence of `x` in the tree of the root is registered, or still below a job in flight. */
  ghost predicate Conserved(root: Job, x: Job, s: State) {
    Total(Is(x), s.results) + Load(Occurs(x), s)
      + Total(Is(x), Received(s.host)) + Total(Occurs(x), Unsubmitted(s.host)) == Occurs(x)(root)
  }

  /** Each copy of `x` that is registered, received or in flight was asked for, and conversely. */
  ghost predicate Asked(root: Job, x: Job, s: State) {
    Total(Is(x), s.results) + Load(Is(x), s) + Total(Is(x), Received(s.host)) ==
      Is(x)(root) + Total(Is(x), Children(s.results)) + Total(Is(x), Submitted(s.host))
  }

  /** A received result was asked for by results registered before it. */
  ghost predicate AskedBefore(root: Job, x: Job, s: State) {
    Total(Is(x), s.results) + Total(Is(x), Received(s.host)) <= Is(x)(root) + Total(Is(x), Children(s.results))
  }

  ghost predicate Causal(root: Job, x: Job, results: seq<Job>) {
    forall k :: 0 <= k < |results| ==>
      Total(Is(x), results[..k + 1]) <= Is(x)(root) + Total(Is(x), Children(results[..k]))
  }

  ghost predicate RunInv(root: Job, x: Job, s: State) {
    && Running(s.host)
    && WellFormed(s)
    && Counted(s)
    && Conserved(root, x, s)
    && Asked(root, x, s)
    && AskedBefore(root, x, s)
    && Causal(root, x, s.results)
    && (s.host.Finished? ==> s.unfinished == 0)
  }

  lemma StartInv(root: Job, x: Job, processes: nat, capacity: nat)
    ensures RunInv(root, x, Start(root, processes, capacity))
  {
    var s := Start(root, processes, capacity);
    TotalOne(InItem(One()), Work(root));
    TotalOne(InItem(Is(x)), Work(root));
    TotalOne(InItem(Occurs(x)), Work(root));
    TotalZero(InWorker(One()), s.workers);
    TotalZero(InWorker(Is(x)), s.workers);
    TotalZero(InWorker(Occurs(x)), s.workers);
  }

  lemma WorkerKeeps(root: Job, x: Job, s: State, a: Action)
    requires RunInv(root, x, s) && Enabled(s, a) && (a.Take? || a.Put? || a.Die? || a.TaskDone? || a.Exit? || a.Raise?)
    ensures RunInv(root, x, Apply(s, a))
  {
    Flow(One(), s, a);
    Flow(Is(x), s, a);
    Flow(Occurs(x), s, a);
  }

  lemma ReceiveKeeps(root: Job, x: Job, s: State)
    requires RunInv(root, x, s) && Enabled(s, Receive)
    ensures RunInv(root, x, Apply(s, Receive))
  {
    var r := s.output[0].job;
    Flow(One(), s, Receive);
    Flow(Is(x), s, Receive);
    Flow(Occurs(x), s, Receive);
    OccursBelow(x, r);
    TotalOne(Is(x), r);
    assert r.subjobs[0..] == r.subjobs;
  }

  lemma SubmitKeeps(root: Job, x: Job, s: State)
    requires RunInv(root, x, s) && Enabled(s, SubmitNext)
    ensures RunInv(root, x, Apply(s, SubmitNext))
  {
    var subjobs, k := s.host.result.subjobs, s.host.next;
    Flow(One(), s, SubmitNext);
    Flow(Is(x), s, SubmitNext);
    Flow(Occurs(x), s, SubmitNext);
    assert subjobs[k..][1..] == subjobs[k + 1..];
    assert subjobs[..k + 1] == subjobs[..k] + [subjobs[k]];
    TotalAppend(Is(x), subjobs[..k], subjobs[k]);
  }

  lemma CausalAppend(root: Job, x: Job, results: seq<Job>, r: Job)
    requires Causal(root, x, results)
    requires Total(Is(x), results + [r]) <= Is(x)(root) + Total(Is(x), Children(results))
    ensures Causal(root, x, results + [r])
  {
    hide Total, Children;
    var longer := results + [r];
    forall k | 0 <= k < |longer|
      ensures Total(Is(x), longer[..k + 1]) <= Is(x)(root) + Total(Is(x), Children(longer[..k]))
    {
      if k < |results| {
        assert longer[..k + 1] == results[..k + 1] && longer[..k] == results[..k];
      } else {
        assert longer[..k + 1] == longer && longer[..k] == results;
      }
    }
  }

  lemma RegisterKeeps(root: Job, x: Job, s: State)
    requires RunInv(root, x, s) && Enabled(s, Register)
    ensures RunInv(root, x, Apply(s, Register))
  {
    var r := s.host.result;
    Flow(One(), s, Register);
    Flow(Is(x), s, Register);
    Flow(Occurs(x), s, Register);
    TotalAppend(Is(x), s.results, r);
    TotalOne(Is(x), r);
    ChildrenAppend(Is(x), s.results, r);
    assert Submitted(s.host) == r.subjobs;
    CausalAppend(root, x, s.results, r);
  }

  /** Every action that does not leave the running phase keeps the invariant. */
  lemma RunStep(root: Job, x: Job, s: State, a: Action)
    requires RunInv(root, x, s) && Enabled(s, a) && !a.BeginClose?
    ensures RunInv(root, x, Apply(s, a))
  {
    match a
    case Receive => ReceiveKeeps(root, x, s);
    case SubmitNext => SubmitKeeps(root, x, s);
    case Register => RegisterKeeps(root, x, s);
    case _ => WorkerKeeps(root, x, s, a);
  }
}
