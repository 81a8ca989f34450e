/**
 What handling one task asks for next.  The file system, the format handlers and the extractors are
 given by a `World`; what is modelled is the depth limit and the subtasks that are collected.
 */
module Processing {
  import opened Sums
  import opened Jobs
  import opened Pool
  import opened PoolRuns

  /** A set of files a directory handler recognises, and what extracting it led to. */
  datatype MultiFile = MultiFile(id: string, paths: seq<string>, extractDir: string, existed: bool, extracted: bool)

  /** A chunk whose extraction left a directory behind. */
  datatype Extract = Extract(id: string, dir: string)

  datatype Kind =
    | Directory(entries: seq<string>, multiFiles: seq<MultiFile>)
    | Regular(skipped: bool, extracts: seq<Extract>)
    | Special

  datatype World = World(kind: string -> Kind, height: string -> nat)

  /** Directory trees are finite: an entry is less high than the directory it is in. */
  ghost predicate FiniteTrees(w: World) {
    forall p, e :: w.kind(p).Directory? && e in w.kind(p).entries ==> w.height(e) < w.height(p)
  }

  /** The progress of a directory task through the multi-files of its directory. */
  datatype Scan = Scan(processed: seq<string>, extractDirs: seq<string>, subtasks: seq<Task>, failed: bool)

  function Union(a: seq<string>, b: seq<string>): (r: seq<string>)
    ensures forall p :: p in r <==> p in a || p in b
    decreases |b|
  {
    if b == [] then a else Union(if b[0] in a then a else a + [b[0]], b[1..])
  }

  /** A conflict, or an extraction directory that is there already, ends the scan of the directory. */
  function ScanOne(t: Task, s: Scan, m: MultiFile): Scan {
    if m.existed || exists k :: 0 <= k < |m.paths| && m.paths[k] in s.processed then s.(failed := true)
    else Scan(Union(s.processed, m.paths),
              if m.extracted then s.extractDirs + [m.extractDir] else s.extractDirs,
              if m.extracted then s.subtasks + [Task(m.extractDir, t.depth + 1, m.id, false)] else s.subtasks,
              false)
  }

  function ScanAll(t: Task, s: Scan, ms: seq<MultiFile>): Scan
    decreases |ms|
  {
    if ms == [] || s.failed then s else ScanAll(t, ScanOne(t, s, ms[0]), ms[1..])
  }

  function Plain(t: Task, s: Scan, entries: seq<string>): seq<Task> {
    if entries == [] then []
    else (if entries[0] in s.extractDirs || entries[0] in s.processed then []
          else [Task(entries[0], t.depth, t.blobId, false)]) + Plain(t, s, entries[1..])
  }

  function Parts(t: Task, paths: seq<string>): seq<Task> {
    if paths == [] then [] else [Task(paths[0], t.depth, t.blobId, true)] + Parts(t, paths[1..])
  }

  function Extracted(t: Task, extracts: seq<Extract>): seq<Task> {
    if extracts == [] then []
    else [Task(extracts[0].dir, t.depth + 1, extracts[0].id, false)] + Extracted(t, extracts[1..])
  }

  const NOTHING_SCANNED := Scan([], [], [], false)

  /** The subtasks in the result of a task. */
  function Subtasks(w: World, maxDepth: nat, t: Task): seq<Task> {
    if t.depth >= maxDepth then []
    else match w.kind(t.path)
      case Directory(entries, multiFiles) =>
        if t.isMultiFile then []
        else
          var s := ScanAll(t, NOTHING_SCANNED, multiFiles);
          if s.failed then s.subtasks else s.subtasks + Plain(t, s, entries) + Parts(t, s.processed)
      case Regular(skipped, extracts) => if t.isMultiFile || skipped then [] else Extracted(t, extracts)
      case Special => []
  }

  // ---- the subtasks as the task objects collect them ----

  class TaskResult {
    var subtasks: seq<Task>

    constructor ()
      ensures subtasks == []
    {
      subtasks := [];
    }

    method AddSubtask(t: Task)
      modifies this
      ensures subtasks == old(subtasks) + [t]
    {
      subtasks := subtasks + [t];
    }
  }

  method ProcessTask(w: World, maxDepth: nat, t: Task) returns (result: TaskResult)
    ensures fresh(result) && result.subtasks == Subtasks(w, maxDepth, t)
  {
    hide ScanAll, Plain, Parts;
    result := new TaskResult();
    if t.depth >= maxDepth {
      return;
    }
    match w.kind(t.path)
    case Directory(entries, multiFiles) =>
      if !t.isMultiFile {
        ProcessDirectory(t, entries, multiFiles, result);
      }
    case Regular(skipped, extracts) =>
      if !t.isMultiFile && !skipped {
        for k := 0 to |extracts|
          invariant Extracted(t, extracts) == result.subtasks + Extracted(t, extracts[k..])
        {
          result.AddSubtask(Task(extracts[k].dir, t.depth + 1, extracts[k].id, false));
        }
      }
    case Special =>
  }

  method ProcessDirectory(t: Task, entries: seq<string>, multiFiles: seq<MultiFile>, result: TaskResult)
    requires result.subtasks == []
    modifies result
    ensures var s := ScanAll(t, NOTHING_SCANNED, multiFiles);
            result.subtasks ==
            if s.failed then s.subtasks else s.subtasks + Plain(t, s, entries) + Parts(t, s.processed)
  {
    var failed, processed, extractDirs := ScanDirectory(t, multiFiles, result);
    if failed {
      return;
    }
    IterateDirectory(t, Scan(processed, extractDirs, result.subtasks, false), entries, result);
    for k := 0 to |processed|
      invariant old(result.subtasks) == []
      invariant var s := ScanAll(t, NOTHING_SCANNED, multiFiles);
                s.subtasks + Plain(t, s, entries) + Parts(t, processed) == result.subtasks + Parts(t, processed[k..])
    {
      result.AddSubtask(Task(processed[k], t.depth, t.blobId, true));
    }
  }

  lemma NextMultiFile(t: Task, s: Scan, ms: seq<MultiFile>, k: nat)
    requires k < |ms| && !s.failed
    ensures ScanAll(t, s, ms[k..]) == ScanAll(t, ScanOne(t, s, ms[k]), ms[k + 1..])
    ensures ScanOne(t, s, ms[k]).failed ==> ScanAll(t, s, ms[k..]) == ScanOne(t, s, ms[k])
  {
    hide ScanOne;
    assert ms[k..][0] == ms[k] && ms[k..][1..] == ms[k + 1..];
  }

  lemma ScanIsOver(t: Task, s: Scan, ms: seq<MultiFile>)
    ensures ScanAll(t, s, ms[|ms|..]) == s
    ensures ms[0..] == ms
  {
  }

  method ScanDirectory(t: Task, multiFiles: seq<MultiFile>, result: TaskResult)
    returns (failed: bool, processed: seq<string>, extractDirs: seq<string>)
    requires result.subtasks == []
    modifies result
    ensures failed == ScanAll(t, NOTHING_SCANNED, multiFiles).failed
    ensures result.subtasks == ScanAll(t, NOTHING_SCANNED, multiFiles).subtasks
    ensures !failed ==> ScanAll(t, NOTHING_SCANNED, multiFiles) == Scan(processed, extractDirs, result.subtasks, false)
  {
    hide ScanAll, Union;
    ScanIsOver(t, NOTHING_SCANNED, multiFiles);
    failed, processed, extractDirs := false, [], [];
    for k := 0 to |multiFiles|
      invariant ScanAll(t, NOTHING_SCANNED, multiFiles) ==
                ScanAll(t, Scan(processed, extractDirs, result.subtasks, false), multiFiles[k..])
    {
      var m := multiFiles[k];
      NextMultiFile(t, Scan(processed, extractDirs, result.subtasks, false), multiFiles, k);
      if m.existed || exists i :: 0 <= i < |m.paths| && m.paths[i] in processed {
        failed := true;
        return;
      }
      if m.extracted {
        result.AddSubtask(Task(m.extractDir, t.depth + 1, m.id, false));
        extractDirs := extractDirs + [m.extractDir];
      }
      processed := Union(processed, m.paths);
    }
    ScanIsOver(t, Scan(processed, extractDirs, result.subtasks, false), multiFiles);
  }

  method IterateDirectory(t: Task, s: Scan, entries: seq<string>, result: TaskResult)
    modifies result
    ensures result.subtasks == old(result.subtasks) + Plain(t, s, entries)
  {
    for k := 0 to |entries|
      invariant old(result.subtasks) + Plain(t, s, entries) == result.subtasks + Plain(t, s, entries[k..])
    {
      if entries[k] !in s.extractDirs && entries[k] !in s.processed {
        result.AddSubtask(Task(entries[k], t.depth, t.blobId, false));
      }
    }
  }

  // ---- which subtasks there are, and how often ----

  /** A file of one of the multi-files. */
  predicate IsPart(ms: seq<MultiFile>, path: string) {
    exists k :: 0 <= k < |ms| && path in ms[k].paths
  }

  predicate IsExtractDir(ms: seq<MultiFile>, path: string) {
    exists k :: 0 <= k < |ms| && ms[k].extracted && ms[k].extractDir == path
  }

  /** A multi-file that shares a file with an earlier one, or whose extraction directory is there already. */
  predicate Conflicts(ms: seq<MultiFile>, k: nat)
    requires k < |ms|
  {
    ms[k].existed || exists p :: p in ms[k].paths && IsPart(ms[..k], p)
  }

  /** The first `n` multi-files are processed; then there are no more, or the next one conflicts. */
  ghost predicate StopsAt(ms: seq<MultiFile>, n: nat) {
    n <= |ms| && (forall k :: 0 <= k < n ==> !Conflicts(ms, k)) && (n < |ms| ==> Conflicts(ms, n))
  }

  /** What a multi-file contributes to the count of `u`: its extraction directory, a level deeper, under its own id. */
  function FromMultiFile(t: Task, u: Task): MultiFile -> nat {
    (m: MultiFile) => if m.extracted && u == Task(m.extractDir, t.depth + 1, m.id, false) then 1 else 0
  }

  function FromExtract(t: Task, u: Task): Extract -> nat {
    (x: Extract) => if u == Task(x.dir, t.depth + 1, x.id, false) then 1 else 0
  }

  /** What an entry contributes: itself, unless it is an extraction directory or a file of a multi-file. */
  function FromEntry(t: Task, ms: seq<MultiFile>, u: Task): string -> nat {
    e => if !IsExtractDir(ms, e) && !IsPart(ms, e) && u == Task(e, t.depth, t.blobId, false) then 1 else 0
  }

  /** A file of a multi-file comes back once, marked as such. */
  function FromPart(t: Task, ms: seq<MultiFile>, u: Task): nat {
    if IsPart(ms, u.path) && u == Task(u.path, t.depth, t.blobId, true) then 1 else 0
  }

  ghost predicate Distinct(paths: seq<string>) {
    forall i, j :: 0 <= i < j < |paths| ==> paths[i] != paths[j]
  }

  lemma {:induction false} UnionIsDistinct(a: seq<string>, b: seq<string>)
    requires Distinct(a)
    ensures Distinct(Union(a, b))
    decreases |b|
  {
    if b != [] {
      UnionIsDistinct(if b[0] in a then a else a + [b[0]], b[1..]);
    }
  }

  /** The scan after some multi-files, none of which conflicts. */
  ghost predicate Scanned(t: Task, ms: seq<MultiFile>, s: Scan, u: Task) {
    && !s.failed && Distinct(s.processed)
    && (forall p :: p in s.processed <==> IsPart(ms, p))
    && (forall p :: p in s.extractDirs <==> IsExtractDir(ms, p))
    && multiset(s.subtasks)[u] == Total(FromMultiFile(t, u), ms)
  }

  lemma PartOfMore(ms: seq<MultiFile>, m: MultiFile, p: string)
    ensures IsPart(ms + [m], p) <==> IsPart(ms, p) || p in m.paths
    ensures IsExtractDir(ms + [m], p) <==> IsExtractDir(ms, p) || (m.extracted && m.extractDir == p)
  {
    var longer := ms + [m];
    assert longer[|ms|] == m && forall k :: 0 <= k < |ms| ==> longer[k] == ms[k];
  }

  lemma ScannedOne(t: Task, ms: seq<MultiFile>, s: Scan, m: MultiFile, u: Task)
    requires Scanned(t, ms, s, u)
    requires !m.existed && forall p :: p in m.paths ==> !IsPart(ms, p)
    ensures Scanned(t, ms + [m], ScanOne(t, s, m), u)
  {
    var next := ScanOne(t, s, m);
    UnionIsDistinct(s.processed, m.paths);
    TotalAppend(FromMultiFile(t, u), ms, m);
    hide IsPart, IsExtractDir, Distinct, Union;
    forall p
      ensures p in next.processed <==> IsPart(ms + [m], p)
      ensures p in next.extractDirs <==> IsExtractDir(ms + [m], p)
    {
      PartOfMore(ms, m, p);
    }
  }

  lemma {:induction false} ScanFrom(t: Task, ms: seq<MultiFile>, k: nat, n: nat, s: Scan, u: Task)
    requires k <= n && StopsAt(ms, n) && Scanned(t, ms[..k], s, u)
    ensures var end := ScanAll(t, s, ms[k..]);
            if n == |ms| then Scanned(t, ms, end, u)
            else end.failed && multiset(end.subtasks)[u] == Total(FromMultiFile(t, u), ms[..n])
    decreases n - k
  {
    hide ScanOne, Scanned;
    if k == |ms| {
      assert ms[..k] == ms;
      ScanIsOver(t, s, ms);
    } else {
      NotFailed(t, ms[..k], s, u);
      NextMultiFile(t, s, ms, k);
      if k < n {
        assert !Conflicts(ms, k);
        ScannedOne(t, ms[..k], s, ms[k], u);
        assert ms[..k] + [ms[k]] == ms[..k + 1];
        ScanFrom(t, ms, k + 1, n, ScanOne(t, s, ms[k]), u);
      } else {
        ScanFails(t, ms, k, s, u);
      }
    }
  }

  lemma NotFailed(t: Task, ms: seq<MultiFile>, s: Scan, u: Task)
    requires Scanned(t, ms, s, u)
    ensures !s.failed
  {
  }

  lemma ScanFails(t: Task, ms: seq<MultiFile>, k: nat, s: Scan, u: Task)
    requires k < |ms| && Conflicts(ms, k) && Scanned(t, ms[..k], s, u)
    ensures ScanOne(t, s, ms[k]) == s.(failed := true)
    ensures multiset(s.subtasks)[u] == Total(FromMultiFile(t, u), ms[..k])
  {
    if !ms[k].existed {
      var p :| p in ms[k].paths && IsPart(ms[..k], p);
      var i :| 0 <= i < |ms[k].paths| && ms[k].paths[i] == p;
      assert ms[k].paths[i] in s.processed;
    }
  }

  lemma {:induction false} PlainCount(t: Task, ms: seq<MultiFile>, s: Scan, entries: seq<string>, u: Task)
    requires Scanned(t, ms, s, u)
    ensures multiset(Plain(t, s, entries))[u] == Total(FromEntry(t, ms, u), entries)
  {
    if entries != [] {
      hide IsPart, IsExtractDir, Distinct;
      PlainCount(t, ms, s, entries[1..], u);
    }
  }

  lemma {:induction false} PartsCount(t: Task, paths: seq<string>, u: Task)
    requires Distinct(paths)
    ensures multiset(Parts(t, paths))[u] ==
            if u.path in paths && u == Task(u.path, t.depth, t.blobId, true) then 1 else 0
  {
    if paths != [] {
      PartsCount(t, paths[1..], u);
    }
  }

  lemma {:induction false} ExtractedCount(t: Task, extracts: seq<Extract>, u: Task)
    ensures multiset(Extracted(t, extracts))[u] == Total(FromExtract(t, u), extracts)
  {
    if extracts != [] {
      ExtractedCount(t, extracts[1..], u);
    }
  }

  /**
   The subtasks of a directory: the extraction directories of its multi-files, one level deeper; its entries,
   as often as they are listed, except those directories and the files of multi-files; and these files once.
   When a multi-file conflicts, only what the ones before it led to.
   */
  lemma SubtasksOfDirectory(w: World, maxDepth: nat, t: Task, n: nat, u: Task)
    requires t.depth < maxDepth && !t.isMultiFile && w.kind(t.path).Directory?
    requires StopsAt(w.kind(t.path).multiFiles, n)
    ensures var ms, entries := w.kind(t.path).multiFiles, w.kind(t.path).entries;
            multiset(Subtasks(w, maxDepth, t))[u] ==
            Total(FromMultiFile(t, u), ms[..n]) +
            if n < |ms| then 0 else Total(FromEntry(t, ms, u), entries) + FromPart(t, ms, u)
  {
    hide ScanAll, Plain, Parts, StopsAt;
    var ms, entries := w.kind(t.path).multiFiles, w.kind(t.path).entries;
    var s := ScanAll(t, NOTHING_SCANNED, ms);
    assert ms[..0] == [] && ms[0..] == ms && ms[..|ms|] == ms;
    ScanFrom(t, ms, 0, n, NOTHING_SCANNED, u);
    StopInRange(ms, n);
    if n == |ms| {
      PlainCount(t, ms, s, entries, u);
      PartsCount(t, s.processed, u);
    }
  }

  lemma StopInRange(ms: seq<MultiFile>, n: nat)
    requires StopsAt(ms, n)
    ensures n <= |ms|
  {
  }

  /** Those of a file: the directories its chunks were extracted to, one level deeper. */
  lemma SubtasksOfFile(w: World, maxDepth: nat, t: Task, u: Task)
    requires t.depth < maxDepth && !t.isMultiFile && w.kind(t.path).Regular? && !w.kind(t.path).skipped
    ensures multiset(Subtasks(w, maxDepth, t))[u] == Total(FromExtract(t, u), w.kind(t.path).extracts)
  {
    ExtractedCount(t, w.kind(t.path).extracts, u);
  }

  /** There are no others: at the depth limit, of a file of a multi-file, a skipped file or a special one. */
  lemma NoSubtasks(w: World, maxDepth: nat, t: Task)
    ensures t.depth >= maxDepth || t.isMultiFile || w.kind(t.path).Special? ==> Subtasks(w, maxDepth, t) == []
    ensures w.kind(t.path).Regular? && w.kind(t.path).skipped ==> Subtasks(w, maxDepth, t) == []
  {
  }

  // ---- depth ----

  /** Remaining depth first, then remaining height; files of a multi-file have nothing below them. */
  ghost predicate Below(w: World, maxDepth: nat, u: Task, t: Task) {
    && u.depth <= maxDepth
    && (u.depth > t.depth || (u.depth == t.depth && Rank(w, u) < Rank(w, t)))
  }

  function Rank(w: World, t: Task): nat {
    if t.isMultiFile then 0 else 1 + w.height(t.path)
  }

  lemma {:induction false} ScanBelow(w: World, maxDepth: nat, t: Task, s: Scan, ms: seq<MultiFile>)
    requires t.depth < maxDepth && forall u :: u in s.subtasks ==> Below(w, maxDepth, u, t)
    ensures forall u :: u in ScanAll(t, s, ms).subtasks ==> Below(w, maxDepth, u, t)
    decreases |ms|
  {
    if ms != [] && !s.failed {
      ScanBelow(w, maxDepth, t, ScanOne(t, s, ms[0]), ms[1..]);
    }
  }

  lemma {:induction false} PlainBelow(w: World, maxDepth: nat, t: Task, s: Scan, entries: seq<string>)
    requires t.depth < maxDepth && !t.isMultiFile && forall e :: e in entries ==> w.height(e) < w.height(t.path)
    ensures forall u :: u in Plain(t, s, entries) ==> Below(w, maxDepth, u, t)
  {
    if entries != [] {
      PlainBelow(w, maxDepth, t, s, entries[1..]);
    }
  }

  lemma {:induction false} PartsBelow(w: World, maxDepth: nat, t: Task, paths: seq<string>)
    requires t.depth < maxDepth && !t.isMultiFile
    ensures forall u :: u in Parts(t, paths) ==> Below(w, maxDepth, u, t)
  {
    if paths != [] {
      PartsBelow(w, maxDepth, t, paths[1..]);
    }
  }

  lemma {:induction false} ExtractedBelow(w: World, maxDepth: nat, t: Task, extracts: seq<Extract>)
    requires t.depth < maxDepth
    ensures forall u :: u in Extracted(t, extracts) ==> Below(w, maxDepth, u, t)
  {
    if extracts != [] {
      ExtractedBelow(w, maxDepth, t, extracts[1..]);
    }
  }

  /** Subtasks never exceed the depth limit, and come closer to it or lie lower in the directory tree. */
  lemma SubtasksBelow(w: World, maxDepth: nat, t: Task)
    requires FiniteTrees(w)
    ensures forall u :: u in Subtasks(w, maxDepth, t) ==> Below(w, maxDepth, u, t)
  {
    if t.depth < maxDepth {
      match w.kind(t.path)
      case Directory(entries, multiFiles) =>
        if !t.isMultiFile {
          var s := ScanAll(t, NOTHING_SCANNED, multiFiles);
          ScanBelow(w, maxDepth, t, NOTHING_SCANNED, multiFiles);
          PlainBelow(w, maxDepth, t, s, entries);
          PartsBelow(w, maxDepth, t, s.processed);
        }
      case Regular(skipped, extracts) => ExtractedBelow(w, maxDepth, t, extracts);
      case Special =>
    }
  }

  /** The whole tree of tasks; that this function exists means that the recursion ends. */
  ghost function Unfold(w: World, maxDepth: nat, t: Task): Job
    requires FiniteTrees(w)
    decreases if t.depth < maxDepth then maxDepth - t.depth else 0, Rank(w, t), 1, 0
  {
    SubtasksBelow(w, maxDepth, t);
    if t.depth >= maxDepth then Job(t, []) else Job(t, UnfoldAll(w, maxDepth, t, Subtasks(w, maxDepth, t)))
  }

  ghost function UnfoldAll(w: World, maxDepth: nat, t: Task, us: seq<Task>): (js: seq<Job>)
    requires FiniteTrees(w) && t.depth < maxDepth && forall u :: u in us ==> Below(w, maxDepth, u, t)
    ensures |js| == |us|
    decreases maxDepth - t.depth, Rank(w, t), 0, |us|
  {
    if us == [] then []
    else
      assert Below(w, maxDepth, us[0], t);
      [Unfold(w, maxDepth, us[0])] + UnfoldAll(w, maxDepth, t, us[1..])
  }

  /** The children of a node are the unfoldings of the subtasks its handler returned. */
  ghost predicate Faithful(w: World, maxDepth: nat, j: Job) {
    && |j.subjobs| == |Subtasks(w, maxDepth, j.task)|
    && forall k :: 0 <= k < |j.subjobs| ==> j.subjobs[k].task == Subtasks(w, maxDepth, j.task)[k]
  }

  lemma {:induction false} UnfoldAt(w: World, maxDepth: nat, t: Task, us: seq<Task>, k: nat)
    requires FiniteTrees(w) && t.depth < maxDepth && forall u :: u in us ==> Below(w, maxDepth, u, t)
    requires k < |us|
    ensures UnfoldAll(w, maxDepth, t, us)[k] == Unfold(w, maxDepth, us[k])
    decreases |us|
  {
    if k > 0 {
      UnfoldAt(w, maxDepth, t, us[1..], k - 1);
    }
  }

  /** Every task in the tree respects the depth limit, and has exactly the subtasks it asked for. */
  lemma {:induction false} TreeIsBounded(w: World, maxDepth: nat, t: Task, j: Job)
    requires FiniteTrees(w) && t.depth <= maxDepth && j in PostOrder(Unfold(w, maxDepth, t))
    ensures j.task.depth <= maxDepth && Faithful(w, maxDepth, j)
    decreases if t.depth < maxDepth then maxDepth - t.depth else 0, Rank(w, t), 1, 0
  {
    var root := Unfold(w, maxDepth, t);
    SubtasksBelow(w, maxDepth, t);
    var us := Subtasks(w, maxDepth, t);
    if j == root {
      forall k | 0 <= k < |us| && t.depth < maxDepth
        ensures root.subjobs[k].task == us[k]
      {
        UnfoldAt(w, maxDepth, t, us, k);
      }
    } else {
      ForestIsBounded(w, maxDepth, t, us, j);
    }
  }

  lemma {:induction false} ForestIsBounded(w: World, maxDepth: nat, t: Task, us: seq<Task>, j: Job)
    requires FiniteTrees(w) && t.depth < maxDepth && forall u :: u in us ==> Below(w, maxDepth, u, t)
    requires j in PostOrderAll(UnfoldAll(w, maxDepth, t, us))
    ensures j.task.depth <= maxDepth && Faithful(w, maxDepth, j)
    decreases maxDepth - t.depth, Rank(w, t), 0, |us|
  {
    assert Below(w, maxDepth, us[0], t);
    var js := UnfoldAll(w, maxDepth, t, us);
    assert js[0] == Unfold(w, maxDepth, us[0]) && js[1..] == UnfoldAll(w, maxDepth, t, us[1..]);
    if j in PostOrder(js[0]) {
      TreeIsBounded(w, maxDepth, us[0], j);
    } else {
      ForestIsBounded(w, maxDepth, t, us[1..], j);
    }
  }

  /** Whatever the schedule and whoever dies, no registered result is of a task beyond the depth limit. */
  lemma RunsRespectDepth(w: World, maxDepth: nat, t: Task, processes: nat, capacity: nat, acts: seq<Action>,
                         end: State, k: nat)
    requires FiniteTrees(w) && t.depth <= maxDepth
    requires Run(Start(Unfold(w, maxDepth, t), processes, capacity), acts, end)
    requires k < |end.results|
    ensures end.results[k].task.depth <= maxDepth && Faithful(w, maxDepth, end.results[k])
  {
    var root, x := Unfold(w, maxDepth, t), end.results[k];
    RunFromStart(root, x, processes, capacity, acts, end);
    TotalAtLeast(Is(x), end.results, k);
    TotalIsCount(x, PostOrder(root));
    TreeIsBounded(w, maxDepth, t, x);
  }
}
