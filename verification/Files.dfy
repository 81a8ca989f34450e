/**
 Memory-mapped files and the generators that read them in blocks.  A generator's yields are collected
 in a sequence.
 */
module Files {
  import opened Bytes

  datatype Error = InvalidInputFormat | SeekError | EOFError | ValueError | StructError

  datatype Result<+T> = Ok(value: T) | Err(error: Error)

  class File {
    const data: seq<byte>
    var pos: nat

    ghost predicate Valid()
      reads this
    {
      pos <= |data|
    }

    constructor (data: seq<byte>)
      ensures Valid() && this.data == data && pos == 0
    {
      this.data := data;
      pos := 0;
    }

    /** Positions outside the file are refused; the end of the file is inside. */
    method Seek(p: int) returns (ok: bool)
      requires Valid()
      modifies this
      ensures Valid() && ok == (0 <= p <= |data|) && pos == (if ok then p else old(pos))
    {
      ok := 0 <= p <= |data|;
      if ok {
        pos := p;
      }
    }

    method Read(n: nat) returns (bytes: seq<byte>)
      requires Valid()
      modifies this
      ensures Valid() && bytes == Slice(data, old(pos), n) && pos == old(pos) + |bytes|
    {
      bytes := Slice(data, pos, n);
      pos := pos + |bytes|;
    }
  }

  /** At most `n` bytes from `start` on. */
  function Slice(data: seq<byte>, start: nat, n: nat): (r: seq<byte>)
    requires start <= |data|
    ensures |r| == Min(n, |data| - start)
  {
    data[start..start + Min(n, |data| - start)]
  }

  function Min(a: int, b: int): int {
    if a < b then a else b
  }

  function Max(a: int, b: int): int {
    if a < b then b else a
  }

  function Flatten(blocks: seq<seq<byte>>): seq<byte> {
    if blocks == [] then [] else Flatten(blocks[..|blocks| - 1]) + blocks[|blocks| - 1]
  }

  // ---- reading a range in blocks ----

  /** All blocks are full, but for the last one, and none is empty. */
  ghost predicate Blocked(blocks: seq<seq<byte>>, bufferSize: int) {
    blocks == []
    || (AllFull(blocks[..|blocks| - 1], bufferSize) && 1 <= |blocks[|blocks| - 1]| <= bufferSize)
  }

  ghost predicate AllFull(blocks: seq<seq<byte>>, bufferSize: int) {
    forall k :: 0 <= k < |blocks| ==> |blocks[k]| == bufferSize
  }

  lemma NoBlocks(data: seq<byte>, start: nat, bufferSize: int)
    requires start <= |data|
    ensures AllFull([], bufferSize) && Blocked([], bufferSize) && Flatten([]) == data[start..start]
  {
  }

  lemma OneMoreBlock(data: seq<byte>, start: nat, blocks: seq<seq<byte>>, end: nat, block: seq<byte>, bufferSize: int)
    requires start <= end <= |data| && AllFull(blocks, bufferSize) && Flatten(blocks) == data[start..end]
    requires 1 <= |block| <= bufferSize && block == Slice(data, end, |block|)
    ensures Flatten(blocks + [block]) == data[start..end + |block|] && Blocked(blocks + [block], bufferSize)
    ensures |block| == bufferSize ==> AllFull(blocks + [block], bufferSize)
  {
    assert (blocks + [block])[..|blocks|] == blocks;
    assert data[start..end] + data[end..end + |block|] == data[start..end + |block|];
  }

  /** The bytes of a range, as far as the file has them, cut into blocks. */
  method IterateFile(file: File, startOffset: int, size: int, bufferSize: int) returns (r: Result<seq<seq<byte>>>)
    requires file.Valid()
    modifies file
    ensures file.Valid()
    ensures r.Err? <==> bufferSize <= 0 || !(0 <= startOffset <= |file.data|)
    ensures r.Err? ==> r.error == if bufferSize <= 0 then ValueError else SeekError
    ensures r.Ok? ==> Flatten(r.value) == Slice(file.data, startOffset, Max(size, 0))
    ensures r.Ok? ==> Blocked(r.value, bufferSize)
  {
    if bufferSize <= 0 {
      return Err(ValueError);
    }
    hide Flatten, Blocked, AllFull;
    var buffer, readBytes := bufferSize, 0;
    var ok := file.Seek(startOffset);
    if !ok {
      return Err(SeekError);
    }
    var blocks: seq<seq<byte>> := [];
    NoBlocks(file.data, startOffset, bufferSize);
    while readBytes < size
      invariant file.Valid() && 0 < buffer <= bufferSize && 0 <= readBytes <= Max(size, 0)
      invariant readBytes < size ==> buffer == bufferSize
      invariant file.pos == startOffset + Min(readBytes, |file.data| - startOffset)
      invariant Flatten(blocks) == file.data[startOffset..file.pos]
      invariant Blocked(blocks, bufferSize)
      invariant readBytes < size && file.pos < |file.data| ==> AllFull(blocks, bufferSize)
    {
      var remaining := size - readBytes;
      buffer := Min(remaining, buffer);
      readBytes := readBytes + buffer;
      var data := file.Read(buffer);
      if data == [] {
        break;
      }
      OneMoreBlock(file.data, startOffset, blocks, file.pos - |data|, data, bufferSize);
      blocks := blocks + [data];
    }
    return Ok(blocks);
  }

  // ---- searching for a pattern in blocks ----

  /** The search inside one block after a number of turns: what it has yielded, and its marker. */
  function SearchTurns(chunk: seq<byte>, pattern: seq<byte>, base: nat, turns: nat): (seq<nat>, Option<nat>) {
    if turns == 0 then ([], Find(chunk, pattern, 0))
    else
      var (hits, marker) := SearchTurns(chunk, pattern, base, turns - 1);
      match marker
      case None => (hits, None)
      case Some(m) => (hits + [base + m], Find(chunk, pattern, m + |pattern|))
  }

  /** For the empty pattern the loop does not end: it yields the start of the block once in every turn. */
  lemma {:induction false} EmptyPatternStays(chunk: seq<byte>, base: nat, turns: nat)
    ensures var (hits, marker) := SearchTurns(chunk, [], base, turns);
            marker == Some(0) && |hits| == turns && forall k :: 0 <= k < turns ==> hits[k] == base
  {
    assert OccursAt(chunk, [], 0);
    if turns > 0 {
      EmptyPatternStays(chunk, base, turns - 1);
    }
  }

  lemma HitsFrom(chunk: seq<byte>, pattern: seq<byte>, start: nat, base: nat)
    requires pattern != []
    ensures match Find(chunk, pattern, start)
            case None => ChunkHits(chunk, pattern, start, base) == []
            case Some(m) =>
              && m + |pattern| <= |chunk|
              && ChunkHits(chunk, pattern, start, base) == [base + m] + ChunkHits(chunk, pattern, m + |pattern|, base)
  {
    hide Find;
    FindBounds(chunk, pattern, start);
  }

  /** For other patterns it has yielded all hits of the block when its marker is gone. */
  lemma {:induction false} TurnsAreHits(chunk: seq<byte>, pattern: seq<byte>, base: nat, turns: nat)
    requires pattern != []
    ensures var (hits, marker) := SearchTurns(chunk, pattern, base, turns);
            match marker
            case None => hits == ChunkHits(chunk, pattern, 0, base)
            case Some(m) =>
              m + |pattern| <= |chunk| &&
              hits + ([base + m] + ChunkHits(chunk, pattern, m + |pattern|, base)) == ChunkHits(chunk, pattern, 0, base)
  {
    hide Find, ChunkHits;
    if turns == 0 {
      HitsFrom(chunk, pattern, 0, base);
      ConcatAssociates(ChunkHits(chunk, pattern, 0, base), [], []);
    } else {
      TurnsAreHits(chunk, pattern, base, turns - 1);
      var (hits, marker) := SearchTurns(chunk, pattern, base, turns - 1);
      if marker.Some? {
        var m := marker.value;
        HitsFrom(chunk, pattern, m + |pattern|, base);
        ConcatAssociates(hits, [base + m], ChunkHits(chunk, pattern, m + |pattern|, base));
        ConcatAssociates(hits + [base + m], [], []);
      }
    }
  }

  predicate OccursAt(data: seq<byte>, pattern: seq<byte>, p: nat) {
    p + |pattern| <= |data| && data[p..p + |pattern|] == pattern
  }

  /** The first occurrence at or after `start`. */
  function Find(data: seq<byte>, pattern: seq<byte>, start: nat): Option<nat>
    decreases |data| - start
  {
    if start + |pattern| > |data| then None
    else if OccursAt(data, pattern, start) then Some(start)
    else if start == |data| then None
    else Find(data, pattern, start + 1)
  }

  lemma {:induction false} FindIsFirst(data: seq<byte>, pattern: seq<byte>, start: nat)
    ensures var r := Find(data, pattern, start);
            && (r.Some? ==> start <= r.value && OccursAt(data, pattern, r.value))
            && forall p: nat :: start <= p && (r.None? || p < r.value) ==> !OccursAt(data, pattern, p)
    decreases |data| - start
  {
    if start + |pattern| <= |data| && !OccursAt(data, pattern, start) && start < |data| {
      FindIsFirst(data, pattern, start + 1);
    }
  }

  lemma FindBounds(data: seq<byte>, pattern: seq<byte>, start: nat)
    ensures var r := Find(data, pattern, start); r.Some? ==> start <= r.value && r.value + |pattern| <= |data|
  {
    FindIsFirst(data, pattern, start);
  }

  /** The positions yielded from one block that starts at `base`: occurrences that do not overlap. */
  function ChunkHits(chunk: seq<byte>, pattern: seq<byte>, start: nat, base: nat): seq<nat>
    requires pattern != []
    decreases |chunk| - start
  {
    FindBounds(chunk, pattern, start);
    match Find(chunk, pattern, start)
    case None => []
    case Some(m) => [base + m] + ChunkHits(chunk, pattern, m + |pattern|, base)
  }

  /** Where the next block starts: behind the last hit, or so that nothing across the boundary is missed. */
  function NextBlock(hits: seq<nat>, current: nat, chunk: seq<byte>, pattern: seq<byte>): nat
    requires |pattern| <= |chunk|
  {
    if hits == [] then current + |chunk| - |pattern| + 1 else hits[|hits| - 1] + 1
  }

  /** All positions yielded from `current` on. */
  function AllHits(data: seq<byte>, pattern: seq<byte>, chunkSize: nat, current: nat): seq<nat>
    requires pattern != [] && current <= |data|
    decreases |data| - current
  {
    var chunk := Slice(data, current, chunkSize);
    if |chunk| < |pattern| then []
    else
      var hits := ChunkHits(chunk, pattern, 0, current);
      ChunkHitsBounds(chunk, pattern, 0, current);
      hits + AllHits(data, pattern, chunkSize, NextBlock(hits, current, chunk, pattern))
  }

  function Hits(data: seq<byte>, pattern: seq<byte>, chunkSize: nat, start: nat): seq<nat>
    requires start <= |data|
  {
    if pattern == [] then [] else AllHits(data, pattern, chunkSize, start)
  }

  lemma AllHitsStep(data: seq<byte>, pattern: seq<byte>, chunkSize: nat, current: nat)
    requires pattern != [] && current <= |data|
    ensures var chunk := Slice(data, current, chunkSize);
            if |chunk| < |pattern| then AllHits(data, pattern, chunkSize, current) == []
            else
              var hits := ChunkHits(chunk, pattern, 0, current);
              var next := NextBlock(hits, current, chunk, pattern);
              && current < next <= |data|
              && AllHits(data, pattern, chunkSize, current) == hits + AllHits(data, pattern, chunkSize, next)
  {
    hide Find, ChunkHits;
    ChunkHitsBounds(Slice(data, current, chunkSize), pattern, 0, current);
  }

  lemma {:induction false} ChunkHitsBounds(chunk: seq<byte>, pattern: seq<byte>, start: nat, base: nat)
    requires pattern != []
    ensures forall k :: 0 <= k < |ChunkHits(chunk, pattern, start, base)| ==>
              base + start <= ChunkHits(chunk, pattern, start, base)[k] <= base + |chunk| - |pattern|
    decreases |chunk| - start
  {
    FindBounds(chunk, pattern, start);
    var r := Find(chunk, pattern, start);
    if r.Some? {
      ChunkHitsBounds(chunk, pattern, r.value + |pattern|, base);
    }
  }

  lemma OccursInChunk(data: seq<byte>, pattern: seq<byte>, start: nat, n: nat, p: nat)
    requires start <= |data| && start <= p && p + |pattern| <= start + |Slice(data, start, n)|
    ensures OccursAt(data, pattern, p) <==> OccursAt(Slice(data, start, n), pattern, p - start)
  {
    var chunk, k := Slice(data, start, n), p - start;
    var end := start + |chunk|;
    assert chunk == data[start..end];
    SubSlice(data, start, end, k, k + |pattern|);
  }

  /** Occurrences in increasing order, from `start` up to but not including `end`. */
  ghost predicate Chain(data: seq<byte>, pattern: seq<byte>, hits: seq<nat>, start: nat, end: nat) {
    if hits == [] then start <= end
    else start <= hits[0] && OccursAt(data, pattern, hits[0]) && Chain(data, pattern, hits[1..], hits[0] + 1, end)
  }

  lemma {:induction false} ChainConcat(
      data: seq<byte>, pattern: seq<byte>, a: seq<nat>, b: seq<nat>, start: nat, mid: nat, end: nat)
    requires Chain(data, pattern, a, start, mid) && Chain(data, pattern, b, mid, end)
    ensures Chain(data, pattern, a + b, start, end)
  {
    if a == [] {
      ConcatAssociates(b, [], []);
      ChainEarlier(data, pattern, b, start, mid, end);
    } else {
      ChainConcat(data, pattern, a[1..], b, a[0] + 1, mid, end);
      assert (a + b)[1..] == a[1..] + b;
    }
  }

  lemma ChainEarlier(data: seq<byte>, pattern: seq<byte>, hits: seq<nat>, start: nat, later: nat, end: nat)
    requires start <= later && Chain(data, pattern, hits, later, end)
    ensures Chain(data, pattern, hits, start, end)
  {
  }

  lemma {:induction false} ChainLater(
      data: seq<byte>, pattern: seq<byte>, hits: seq<nat>, start: nat, end: nat, later: nat)
    requires Chain(data, pattern, hits, start, end) && end <= later
    ensures Chain(data, pattern, hits, start, later)
  {
    if hits != [] {
      ChainLater(data, pattern, hits[1..], hits[0] + 1, end, later);
    }
  }

  /** Some hit overlaps or is the occurrence at `p`, and does not come after it. */
  ghost predicate Covers(hits: seq<nat>, p: nat, length: nat) {
    hits != [] && (hits[0] <= p < hits[0] + length || Covers(hits[1..], p, length))
  }

  lemma {:induction false} CoversConcat(a: seq<nat>, b: seq<nat>, p: nat, length: nat)
    ensures Covers(a + b, p, length) <==> Covers(a, p, length) || Covers(b, p, length)
  {
    if a == [] {
      ConcatAssociates(b, [], []);
    } else {
      CoversConcat(a[1..], b, p, length);
      assert (a + b)[1..] == a[1..] + b;
    }
  }

  function After(hits: seq<nat>, start: nat): nat {
    if hits == [] then start else hits[|hits| - 1] + 1
  }

  lemma {:induction false} ChunkIsSound(
      data: seq<byte>, pattern: seq<byte>, n: nat, current: nat, start: nat, from: nat)
    requires pattern != [] && current <= |data| && from <= current + start
    ensures var hits := ChunkHits(Slice(data, current, n), pattern, start, current);
            Chain(data, pattern, hits, from, After(hits, from))
    decreases |Slice(data, current, n)| - start
  {
    hide Find, Slice, OccursAt;
    var chunk := Slice(data, current, n);
    FindBounds(chunk, pattern, start);
    var r := Find(chunk, pattern, start);
    if r.Some? {
      HitIsOccurrence(data, pattern, n, current, start);
      ChunkIsSound(data, pattern, n, current, r.value + |pattern|, current + r.value + 1);
    }
  }

  lemma HitIsOccurrence(data: seq<byte>, pattern: seq<byte>, n: nat, current: nat, start: nat)
    requires current <= |data| && Find(Slice(data, current, n), pattern, start).Some?
    ensures OccursAt(data, pattern, current + Find(Slice(data, current, n), pattern, start).value)
  {
    FindIsFirst(Slice(data, current, n), pattern, start);
    OccursInChunk(data, pattern, current, n, current + Find(Slice(data, current, n), pattern, start).value);
  }

  lemma {:induction false} ChunkIsCovered(data: seq<byte>, pattern: seq<byte>, n: nat, current: nat, start: nat, p: nat)
    requires pattern != [] && current <= |data|
    requires current + start <= p && p + |pattern| <= current + |Slice(data, current, n)| && OccursAt(data, pattern, p)
    ensures Covers(ChunkHits(Slice(data, current, n), pattern, start, current), p, |pattern|)
    decreases |Slice(data, current, n)| - start
  {
    var chunk := Slice(data, current, n);
    FindIsFirst(chunk, pattern, start);
    OccursInChunk(data, pattern, current, n, p);
    var m := Find(chunk, pattern, start).value;
    if p >= current + m + |pattern| {
      ChunkIsCovered(data, pattern, n, current, m + |pattern|, p);
    }
  }

  lemma {:induction false} SearchIsChain(data: seq<byte>, pattern: seq<byte>, n: nat, current: nat)
    requires pattern != [] && current <= |data|
    ensures Chain(data, pattern, AllHits(data, pattern, n, current), current, |data|)
    decreases |data| - current
  {
    var chunk := Slice(data, current, n);
    if |chunk| >= |pattern| {
      var hits := ChunkHits(chunk, pattern, 0, current);
      var next := NextBlock(hits, current, chunk, pattern);
      ChunkHitsBounds(chunk, pattern, 0, current);
      ChunkIsSound(data, pattern, n, current, 0, current);
      ChainLater(data, pattern, hits, current, After(hits, current), next);
      SearchIsChain(data, pattern, n, next);
      ChainConcat(data, pattern, hits, AllHits(data, pattern, n, next), current, next, |data|);
    }
  }

  lemma {:induction false} SearchCovers(data: seq<byte>, pattern: seq<byte>, n: nat, current: nat, p: nat)
    requires pattern != [] && |pattern| <= n && current <= p && OccursAt(data, pattern, p)
    ensures Covers(AllHits(data, pattern, n, current), p, |pattern|)
    decreases |data| - current
  {
    var chunk := Slice(data, current, n);
    var hits := ChunkHits(chunk, pattern, 0, current);
    var next := NextBlock(hits, current, chunk, pattern);
    ChunkHitsBounds(chunk, pattern, 0, current);
    CoversConcat(hits, AllHits(data, pattern, n, next), p, |pattern|);
    if p < next {
      ChunkIsCovered(data, pattern, n, current, 0, p);
    } else {
      SearchCovers(data, pattern, n, next, p);
    }
  }

  lemma {:induction false} ChainAt(data: seq<byte>, pattern: seq<byte>, hits: seq<nat>, start: nat, end: nat, k: nat)
    requires Chain(data, pattern, hits, start, end) && k < |hits|
    ensures start <= hits[k] < end && OccursAt(data, pattern, hits[k]) && (k > 0 ==> hits[k - 1] < hits[k])
  {
    if k > 0 {
      ChainAt(data, pattern, hits[1..], hits[0] + 1, end, k - 1);
    } else {
      ChainEnds(data, pattern, hits[1..], hits[0] + 1, end);
    }
  }

  lemma {:induction false} ChainEnds(data: seq<byte>, pattern: seq<byte>, hits: seq<nat>, start: nat, end: nat)
    requires Chain(data, pattern, hits, start, end)
    ensures start <= end
  {
    if hits != [] {
      ChainEnds(data, pattern, hits[1..], hits[0] + 1, end);
    }
  }

  lemma {:induction false} CoveredByHit(hits: seq<nat>, p: nat, length: nat) returns (k: nat)
    requires Covers(hits, p, length)
    ensures k < |hits| && hits[k] <= p < hits[k] + length
  {
    if hits[0] <= p < hits[0] + length {
      k := 0;
    } else {
      k := CoveredByHit(hits[1..], p, length);
      k := k + 1;
    }
  }

  /** A search yields true occurrences only, in strictly increasing order. */
  lemma SearchIsSound(data: seq<byte>, pattern: seq<byte>, n: nat, start: nat, k: nat)
    requires pattern != [] && start <= |data| && k < |AllHits(data, pattern, n, start)|
    ensures var hits := AllHits(data, pattern, n, start);
            start <= hits[k] && OccursAt(data, pattern, hits[k]) && (k > 0 ==> hits[k - 1] < hits[k])
  {
    SearchIsChain(data, pattern, n, start);
    ChainAt(data, pattern, AllHits(data, pattern, n, start), start, |data|, k);
  }

  /** The position was yielded, or overlaps one that was yielded before it. */
  ghost predicate Reported(hits: seq<nat>, p: nat, length: nat) {
    exists k :: 0 <= k < |hits| && hits[k] <= p < hits[k] + length
  }

  /** Whatever the block size, an occurrence is missed only if it overlaps an earlier yielded one. */
  lemma SearchIsComplete(data: seq<byte>, pattern: seq<byte>, n: nat, start: nat, p: nat)
    requires pattern != [] && |pattern| <= n && start <= p && OccursAt(data, pattern, p)
    ensures Reported(AllHits(data, pattern, n, start), p, |pattern|)
  {
    SearchCovers(data, pattern, n, start, p);
    var k := CoveredByHit(AllHits(data, pattern, n, start), p, |pattern|);
  }

  /**
   The positions of a pattern from the current position on, found in blocks of `chunkSize` bytes.
   Between two yields the caller may move the file position; afterwards it is what it was before.  The
   search for the empty pattern ends only where there is nothing to read.
   */
  method IteratePatterns(file: File, pattern: seq<byte>, chunkSize: nat) returns (r: Result<seq<nat>>)
    requires file.Valid() && (pattern == [] ==> Slice(file.data, file.pos, chunkSize) == [])
    modifies file
    ensures file.Valid() && file.pos == old(file.pos)
    ensures r == if chunkSize < |pattern| then Err(ValueError)
                 else Ok(Hits(file.data, pattern, chunkSize, old(file.pos)))
  {
    if chunkSize < |pattern| {
      return Err(ValueError);
    }
    hide Find, ChunkHits, AllHits;
    var initial := file.pos;
    var hits: seq<nat> := [];
    ghost var all := Hits(file.data, pattern, chunkSize, initial);
    while true
      invariant file.Valid() && all == hits + Hits(file.data, pattern, chunkSize, file.pos)
      invariant pattern == [] ==> Slice(file.data, file.pos, chunkSize) == []
      decreases |file.data| - file.pos
    {
      var current := file.pos;
      var data := file.Read(chunkSize);
      if pattern != [] {
        AllHitsStep(file.data, pattern, chunkSize, current);
      }
      if data == [] || |data| < |pattern| {
        break;
      }
      var more := ScanChunk(file, pattern, current, data, initial);
      var ok := file.Seek(file.pos - (|pattern| - 1));
      ConcatAssociates(hits, more, AllHits(file.data, pattern, chunkSize, file.pos));
      hits := hits + more;
    }
    ConcatAssociates(hits, [], []);
    var ok := file.Seek(initial);
    return Ok(hits);
  }

  /** The caller gets control at the initial position, does what it likes, and the search resumes. */
  method Yield(file: File, initial: nat, resume: nat)
    requires file.Valid() && initial <= |file.data| && resume <= |file.data|
    modifies file
    ensures file.Valid() && file.pos == resume
  {
    var ok := file.Seek(initial);
    var elsewhere: int := *;
    ok := file.Seek(elsewhere);
    ok := file.Seek(resume);
  }

  /** Yields the occurrences inside one block; the position ends up behind the last one, or the block. */
  method ScanChunk(file: File, pattern: seq<byte>, current: nat, data: seq<byte>, initial: nat) returns (hits: seq<nat>)
    requires file.Valid() && |pattern| <= |data| && pattern != [] && initial <= |file.data|
    requires file.pos == current + |data| <= |file.data|
    modifies file
    ensures file.Valid() && hits == ChunkHits(data, pattern, 0, current)
    ensures file.pos == NextBlock(hits, current, data, pattern) + |pattern| - 1
  {
    hide Find, ChunkHits;
    hits := [];
    var marker := Find(data, pattern, 0);
    ghost var start := 0;
    while marker.Some?
      invariant file.Valid() && marker == Find(data, pattern, start)
      invariant ChunkHits(data, pattern, 0, current) == hits + ChunkHits(data, pattern, start, current)
      invariant file.pos == NextBlock(hits, current, data, pattern) + |pattern| - 1
      decreases |data| - start
    {
      var m := marker.value;
      FindBounds(data, pattern, start);
      ChunkHitsStep(data, pattern, start, current, m, hits);
      Yield(file, initial, current + m + |pattern|);
      hits := hits + [current + m];
      start := m + |pattern|;
      marker := Find(data, pattern, m + |pattern|);
    }
    NoMoreHits(data, pattern, start, current);
    ConcatAssociates(hits, [], []);
  }

  lemma NoMoreHits(data: seq<byte>, pattern: seq<byte>, start: nat, current: nat)
    requires pattern != [] && Find(data, pattern, start) == None
    ensures ChunkHits(data, pattern, start, current) == []
  {
  }

  lemma ChunkHitsStep(data: seq<byte>, pattern: seq<byte>, start: nat, current: nat, m: nat, hits: seq<nat>)
    requires pattern != [] && Find(data, pattern, start) == Some(m)
    ensures hits + ChunkHits(data, pattern, start, current) ==
            hits + [current + m] + ChunkHits(data, pattern, m + |pattern|, current)
  {
    ConcatAssociates(hits, [current + m], ChunkHits(data, pattern, m + |pattern|, current));
  }

  /** A pattern without border: no proper prefix is also a suffix. */
  ghost predicate NoBorder(pattern: seq<byte>) {
    forall k :: 0 < k < |pattern| ==> pattern[k..] != pattern[..|pattern| - k]
  }

  lemma OverlapIsBorder(data: seq<byte>, pattern: seq<byte>, p: nat, q: nat)
    requires OccursAt(data, pattern, p) && OccursAt(data, pattern, q) && p < q < p + |pattern|
    ensures !NoBorder(pattern)
  {
    var k := q - p;
    assert data[p..p + |pattern|][k..] == data[q..p + |pattern|];
    assert data[q..q + |pattern|][..|pattern| - k] == data[q..p + |pattern|];
  }

  /** Without borders, the search yields exactly the occurrences from its initial position on. */
  lemma BorderlessSearchIsExact(data: seq<byte>, pattern: seq<byte>, n: nat, start: nat, p: nat)
    requires pattern != [] && |pattern| <= n && start <= |data| && NoBorder(pattern)
    ensures p in AllHits(data, pattern, n, start) <==> start <= p && OccursAt(data, pattern, p)
  {
    var hits := AllHits(data, pattern, n, start);
    if p in hits {
      var k :| 0 <= k < |hits| && hits[k] == p;
      SearchIsSound(data, pattern, n, start, k);
    }
    if start <= p && OccursAt(data, pattern, p) {
      SearchCovers(data, pattern, n, start, p);
      var k := CoveredByHit(hits, p, |pattern|);
      SearchIsSound(data, pattern, n, start, k);
      if hits[k] < p {
        OverlapIsBorder(data, pattern, hits[k], p);
      }
    }
  }

  // ---- integers of variable length ----

  /** Number of bytes used and value; seven bits to a byte, least significant first. */
  function MultibyteInteger(data: seq<byte>): (r: Option<(nat, nat)>)
    ensures r.Some? ==> 1 <= r.value.0 <= |data|
  {
    if data == [] then None
    else if data[0] < 128 then Some((1, data[0]))
    else
      var (size, value) :- MultibyteInteger(data[1..]);
      Some((size + 1, data[0] % 128 + 128 * value))
  }

  /** `x` shifted to the left by `n` groups of seven bits. */
  function ShiftGroups(x: nat, n: nat): nat {
    if n == 0 then x else 128 * ShiftGroups(x, n - 1)
  }

  lemma {:induction false} ShiftAdds(x: nat, y: nat, n: nat)
    ensures ShiftGroups(x + y, n) == ShiftGroups(x, n) + ShiftGroups(y, n)
  {
    if n > 0 {
      ShiftAdds(x, y, n - 1);
    }
  }

  lemma {:induction false} ShiftOnce(x: nat, n: nat)
    ensures ShiftGroups(128 * x, n) == ShiftGroups(x, n + 1)
  {
    if n > 0 {
      ShiftOnce(x, n - 1);
    }
  }

  /**
   Decodes the integer at the start of the data.  The value so far is smaller than the next group's
   unit, so that combining them with a bitwise or is adding them.
   */
  method DecodeMultibyteInteger(data: seq<byte>) returns (r: Result<(nat, nat)>)
    ensures r == match MultibyteInteger(data) case Some(v) => Ok(v) case None => Err(InvalidInputFormat)
  {
    var value: nat := 0;
    assert data[0..] == data;
    for size := 0 to |data|
      invariant value < ShiftGroups(1, size)
      invariant MultibyteInteger(data) == Shifted(MultibyteInteger(data[size..]), size, value)
    {
      ShiftedStep(data, size, value);
      value := value + ShiftGroups(data[size] % 128, size);
      if data[size] < 128 {
        return Ok((size + 1, value));
      }
    }
    return Err(InvalidInputFormat);
  }

  /** The whole, when `size` bytes of value `low` come before the rest. */
  function Shifted(rest: Option<(nat, nat)>, size: nat, low: nat): Option<(nat, nat)> {
    match rest
    case None => None
    case Some((n, value)) => Some((size + n, low + ShiftGroups(value, size)))
  }

  lemma ShiftedStep(data: seq<byte>, size: nat, low: nat)
    requires size < |data| && low < ShiftGroups(1, size)
    ensures var next := low + ShiftGroups(data[size] % 128, size);
            && next < ShiftGroups(1, size + 1)
            && Shifted(MultibyteInteger(data[size..]), size, low) ==
               if data[size] < 128 then Some((size + 1, next))
               else Shifted(MultibyteInteger(data[size + 1..]), size + 1, next)
  {
    var b, rest := data[size] % 128, data[size + 1..];
    assert data[size..][1..] == rest;
    ShiftAdds(b, 127 - b, size);
    ShiftAdds(127, 1, size);
    ShiftOnce(1, size);
    if MultibyteInteger(rest).Some? {
      var value := MultibyteInteger(rest).value.1;
      ShiftAdds(b, 128 * value, size);
      ShiftOnce(value, size);
    }
  }

  function EncodeMultibyte(v: nat): (r: seq<byte>)
    ensures r != []
  {
    if v < 128 then [v] else [128 + v % 128] + EncodeMultibyte(v / 128)
  }

  /** Every value comes back, whatever follows it. */
  lemma {:induction false} MultibyteRoundTrip(v: nat, tail: seq<byte>)
    ensures MultibyteInteger(EncodeMultibyte(v) + tail) == Some((|EncodeMultibyte(v)|, v))
  {
    var data := EncodeMultibyte(v) + tail;
    if v >= 128 {
      MultibyteRoundTrip(v / 128, tail);
      assert data[1..] == EncodeMultibyte(v / 128) + tail;
    }
  }

  /** A value of at most 7n bits takes at most n bytes. */
  lemma {:induction false} MultibyteLength(v: nat, n: nat)
    requires n >= 1 && v < ShiftGroups(1, n)
    ensures |EncodeMultibyte(v)| <= n
  {
    if v >= 128 {
      assert ShiftGroups(1, 0) == 1;
      MultibyteLength(v / 128, n - 1);
    }
  }

  /** Rounding up to a multiple, in integers. */
  function RoundUp(size: nat, alignment: nat): nat
    requires alignment > 0
  {
    alignment * ((size + alignment - 1) / alignment)
  }

  /** The least multiple that is not smaller. */
  lemma RoundUpIsLeast(size: nat, alignment: nat)
    requires alignment > 0
    ensures RoundUp(size, alignment) % alignment == 0 && size <= RoundUp(size, alignment) < size + alignment
  {
    var x := size + alignment - 1;
    var k := x / alignment;
    assert x == alignment * k + x % alignment;
    DivisionIs(k * alignment, alignment, k, 0);
  }

  /** What is missing to a multiple. */
  function Padding(n: nat, alignment: nat): nat
    requires alignment > 0
  {
    RoundUpIsLeast(n, alignment);
    RoundUp(n, alignment) - n
  }
}
