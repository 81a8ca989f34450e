/**
 Tasks, and the tree of tasks that handling one of them gives rise to.

 The handler a pool runs is a pure function from a task to a result that lists subtasks.
 A `Job` is a task together with its unfolding under that handler: the jobs its result asks for.
 Registering the result of a job is recorded by keeping the job itself.
 */
module Jobs {
  import opened Sums

  datatype Task = Task(path: string, depth: nat, blobId: string, isMultiFile: bool)

  datatype Job = Job(task: Task, subjobs: seq<Job>)

  /** Results in the order in which a single process registers them: children first. */
  function PostOrder(j: Job): seq<Job>
    decreases j
  {
    PostOrderAll(j.subjobs) + [j]
  }

  function PostOrderAll(js: seq<Job>): seq<Job>
    decreases js
  {
    if js == [] then [] else PostOrder(js[0]) + PostOrderAll(js[1..])
  }

  lemma {:induction false} ForestSplits(js: seq<Job>, k: nat)
    requires k < |js|
    ensures PostOrderAll(js) == PostOrderAll(js[..k]) + PostOrder(js[k]) + PostOrderAll(js[k + 1..])
  {
    if k == 0 {
      assert js[..0] == [];
    } else {
      ForestSplits(js[1..], k - 1);
      assert js[..k][1..] == js[1..][..k - 1] && js[1..][k..] == js[k + 1..];
    }
  }

  /** The results of a job come last, and those below its subjobs before, one subjob after the other. */
  lemma PostOrderIs(j: Job, k: nat)
    requires k < |j.subjobs|
    ensures var from, n := |PostOrderAll(j.subjobs[..k])|, |PostOrder(j.subjobs[k])|;
            && from + n < |PostOrder(j)| && PostOrder(j)[from..from + n] == PostOrder(j.subjobs[k])
            && PostOrder(j)[|PostOrder(j)| - 1] == j
            && |PostOrderAll(j.subjobs[..k + 1])| == from + n
  {
    hide PostOrderAll;
    ForestSplits(j.subjobs, k);
    ForestSplits(j.subjobs[..k + 1], k);
    assert j.subjobs[..k + 1][..k] == j.subjobs[..k] && j.subjobs[..k + 1][k + 1..] == [];
    NoResults();
  }

  lemma NoResults()
    ensures PostOrderAll([]) == []
  {
  }

  /** The jobs directly asked for by a list of results. */
  ghost function Children(js: seq<Job>): seq<Job> {
    if js == [] then [] else Children(js[..|js| - 1]) + js[|js| - 1].subjobs
  }

  // ---- weights of jobs ----

  type Weight = Job -> nat

  function One(): Weight { _ => 1 }

  function Is(x: Job): Weight { j => if j == x then 1 else 0 }

  /** How often `x` occurs in the tree of a job. */
  function Occurs(x: Job): Weight { j => Total(Is(x), PostOrder(j)) }

  lemma {:induction false} TotalIsCount(x: Job, js: seq<Job>)
    ensures Total(Is(x), js) == multiset(js)[x]
  {
    if js != [] {
      TotalIsCount(x, js[1..]);
      assert js == [js[0]] + js[1..];
    }
  }

  lemma {:induction false} TotalOnes(js: seq<Job>)
    ensures Total(One(), js) == |js|
  {
    if js != [] {
      TotalOnes(js[1..]);
    }
  }

  /** Occurrences in a forest are occurrences in its post-order list. */
  lemma {:induction false} OccursInForest(x: Job, js: seq<Job>)
    ensures Total(Occurs(x), js) == Total(Is(x), PostOrderAll(js))
  {
    if js != [] {
      OccursInForest(x, js[1..]);
      TotalConcat(Is(x), PostOrder(js[0]), PostOrderAll(js[1..]));
    }
  }

  /** A job occurs once as itself and otherwise below its children. */
  lemma OccursBelow(x: Job, j: Job)
    ensures Occurs(x)(j) == Is(x)(j) + Total(Occurs(x), j.subjobs)
  {
    TotalConcat(Is(x), PostOrderAll(j.subjobs), [j]);
    TotalOne(Is(x), j);
    OccursInForest(x, j.subjobs);
  }

  lemma ChildrenAppend(f: Weight, js: seq<Job>, j: Job)
    ensures Total(f, Children(js + [j])) == Total(f, Children(js)) + Total(f, j.subjobs)
  {
    assert (js + [j])[..|js|] == js;
    TotalConcat(f, Children(js), j.subjobs);
  }

  /** A job listed among the children of some results is a subjob of one of them. */
  lemma {:induction false} ChildHasParent(js: seq<Job>, c: Job)
    requires c in Children(js)
    ensures exists k :: 0 <= k < |js| && c in js[k].subjobs
  {
    var last := |js| - 1;
    if c !in js[last].subjobs {
      ChildHasParent(js[..last], c);
      var k :| 0 <= k < last && c in js[..last][k].subjobs;
      assert js[k] == js[..last][k];
    }
  }
}
