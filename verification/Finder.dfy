/**
 The search for chunks.  The pattern matcher reports the matches inside each block of a stream, in
 order; a callback may compute a chunk for a match, upon which the stream starts anew behind it.
 */
module Finder {
  import opened Bytes
  import opened Chunks

  /** A match of a handler's pattern, at an offset relative to the start of the stream. */
  datatype Match = Match(handler: nat, offset: nat)

  /**
   What is not visible here: the matches reported while the block at `i` of the stream that began at
   `start` is scanned, the handlers' match offsets, and the chunks they compute; no chunk stands for
   every error of a handler.
   */
  datatype World = World(
    scan: (nat, nat) -> seq<Match>,
    matchOffset: nat -> int,
    calculate: (nat, nat) -> Option<Chunk>)

  const MAXSIZE := 0x7FFF_FFFF_FFFF_FFFF

  /** A handler's chunk contains the offset it was computed for. */
  ghost predicate ContainsQueried(w: World) {
    forall h: nat, o: nat :: w.calculate(h, o).Some? ==> ContainsOffset(w.calculate(h, o).value, o)
  }

  /** A handler matches at the start of its chunks. */
  ghost predicate StartsAtMatch(w: World) {
    && (forall h: nat :: w.matchOffset(h) == 0)
    && (forall h: nat, o: nat :: w.calculate(h, o).Some? ==> w.calculate(h, o).value.start == o)
  }

  predicate Occupied(chunks: seq<Chunk>, offset: int) {
    exists k :: 0 <= k < |chunks| && ContainsOffset(chunks[k], offset)
  }

  /** The chunk a match leads to, if any. */
  function Accept(w: World, fileSize: nat, chunks: seq<Chunk>, start: nat, m: Match): Option<Chunk> {
    var realOffset := m.offset + start + w.matchOffset(m.handler);
    if realOffset < 0 || realOffset > MAXSIZE || Occupied(chunks, realOffset) then None
    else match w.calculate(m.handler, realOffset)
      case None => None
      case Some(c) => if c.end > fileSize then None else Some(c)
  }

  /** The chunk the first successful match of a block leads to. */
  function FirstAccepted(w: World, fileSize: nat, chunks: seq<Chunk>, start: nat, ms: seq<Match>): Option<Chunk> {
    if ms == [] then None
    else match Accept(w, fileSize, chunks, start, ms[0])
      case Some(c) => Some(c)
      case None => FirstAccepted(w, fileSize, chunks, start, ms[1..])
  }

  // ---- coverage ----

  function Uncovered(chunks: seq<Chunk>, n: nat): nat {
    if n == 0 then 0 else Uncovered(chunks, n - 1) + if Occupied(chunks, n - 1) then 0 else 1
  }

  lemma OccupiedStays(chunks: seq<Chunk>, c: Chunk, b: int)
    ensures Occupied(chunks + [c], b) <==> Occupied(chunks, b) || ContainsOffset(c, b)
  {
    if Occupied(chunks, b) {
      var k :| 0 <= k < |chunks| && ContainsOffset(chunks[k], b);
      assert (chunks + [c])[k] == chunks[k];
    }
    if ContainsOffset(c, b) {
      assert (chunks + [c])[|chunks|] == c;
    }
  }

  /** Another chunk covers no less, and more if it covers a byte that was uncovered. */
  lemma {:induction false} CoversMore(chunks: seq<Chunk>, c: Chunk, n: nat, b: int)
    ensures Uncovered(chunks + [c], n) <= Uncovered(chunks, n)
    ensures 0 <= b < n && !Occupied(chunks, b) && ContainsOffset(c, b) ==>
              Uncovered(chunks + [c], n) < Uncovered(chunks, n)
  {
    if n > 0 {
      CoversMore(chunks, c, n - 1, b);
      OccupiedStays(chunks, c, n - 1);
    }
  }

  /** An accepted chunk covers a byte of the file that no chunk found before covers. */
  lemma AcceptedCoversMore(w: World, fileSize: nat, chunks: seq<Chunk>, start: nat, m: Match)
    requires ContainsQueried(w) && Accept(w, fileSize, chunks, start, m).Some?
    ensures Uncovered(chunks + [Accept(w, fileSize, chunks, start, m).value], fileSize) < Uncovered(chunks, fileSize)
  {
    var realOffset := m.offset + start + w.matchOffset(m.handler);
    CoversMore(chunks, Accept(w, fileSize, chunks, start, m).value, fileSize, realOffset);
  }

  /** Chunks in the order of their discovery, none before the end of the previous one. */
  ghost predicate InSequence(chunks: seq<Chunk>) {
    forall k :: 0 <= k < |chunks| - 1 ==> chunks[k].end <= chunks[k + 1].start
  }

  ghost predicate InBounds(chunks: seq<Chunk>, fileSize: nat) {
    forall k :: 0 <= k < |chunks| ==> chunks[k].end <= fileSize
  }

  function EndOf(chunks: seq<Chunk>): int {
    if chunks == [] then 0 else chunks[|chunks| - 1].end
  }

  lemma {:induction false} FoundChunk(w: World, fileSize: nat, chunks: seq<Chunk>, start: nat, ms: seq<Match>)
    requires FirstAccepted(w, fileSize, chunks, start, ms).Some?
    ensures var c := FirstAccepted(w, fileSize, chunks, start, ms).value;
            && c.end <= fileSize
            && (ContainsQueried(w) ==> Uncovered(chunks + [c], fileSize) < Uncovered(chunks, fileSize))
            && (StartsAtMatch(w) ==> start <= c.start)
  {
    if Accept(w, fileSize, chunks, start, ms[0]).None? {
      FoundChunk(w, fileSize, chunks, start, ms[1..]);
    } else if ContainsQueried(w) {
      AcceptedCoversMore(w, fileSize, chunks, start, ms[0]);
    }
  }

  /** The state of the loop: where it is, where the stream began, and what has been found. */
  datatype Loop = Loop(i: nat, start: nat, chunks: seq<Chunk>)

  /** One turn of the loop, on the block at the current position. */
  function Turn(w: World, fileSize: nat, bufferSize: nat, l: Loop): Loop {
    match FirstAccepted(w, fileSize, l.chunks, l.start, w.scan(l.start, l.i))
    case Some(c) => Loop(c.end, c.end, l.chunks + [c])
    case None => Loop(l.i + bufferSize, l.start, l.chunks)
  }

  /** The loop after a number of turns, or where it ended before. */
  function Iterate(w: World, fileSize: nat, bufferSize: nat, l: Loop, turns: nat): Loop
    decreases turns
  {
    if turns == 0 || l.i >= fileSize then l
    else Iterate(w, fileSize, bufferSize, Turn(w, fileSize, bufferSize, l), turns - 1)
  }

  ghost predicate EndsIn(w: World, fileSize: nat, bufferSize: nat, l: Loop, turns: nat) {
    Iterate(w, fileSize, bufferSize, l, turns).i >= fileSize
  }

  ghost predicate Ends(w: World, fileSize: nat, bufferSize: nat, l: Loop) {
    exists turns: nat :: EndsIn(w, fileSize, bufferSize, l, turns)
  }

  const AT_START := Loop(0, 0, [])

  /** The search through a file comes to its end. */
  ghost predicate SearchEnds(w: World, fileSize: nat, bufferSize: nat) {
    Ends(w, fileSize, bufferSize, AT_START)
  }

  /** The loop where it ends. */
  ghost function ScanFrom(w: World, fileSize: nat, bufferSize: nat, l: Loop): Loop
    requires Ends(w, fileSize, bufferSize, l)
  {
    var turns: nat :| EndsIn(w, fileSize, bufferSize, l, turns);
    Iterate(w, fileSize, bufferSize, l, turns)
  }

  lemma {:induction false} EndIsUnique(w: World, fileSize: nat, bufferSize: nat, l: Loop, m: nat, n: nat)
    requires EndsIn(w, fileSize, bufferSize, l, m) && EndsIn(w, fileSize, bufferSize, l, n)
    ensures Iterate(w, fileSize, bufferSize, l, m) == Iterate(w, fileSize, bufferSize, l, n)
    decreases m
  {
    if l.i < fileSize {
      EndIsUnique(w, fileSize, bufferSize, Turn(w, fileSize, bufferSize, l), m - 1, n - 1);
    }
  }

  /** Any number of turns that is enough leads to the end. */
  lemma ScanIs(w: World, fileSize: nat, bufferSize: nat, l: Loop, turns: nat)
    requires EndsIn(w, fileSize, bufferSize, l, turns)
    ensures Ends(w, fileSize, bufferSize, l)
    ensures ScanFrom(w, fileSize, bufferSize, l) == Iterate(w, fileSize, bufferSize, l, turns)
  {
    var n: nat :| EndsIn(w, fileSize, bufferSize, l, n)
      && ScanFrom(w, fileSize, bufferSize, l) == Iterate(w, fileSize, bufferSize, l, n);
    EndIsUnique(w, fileSize, bufferSize, l, turns, n);
  }

  lemma TurnProgresses(w: World, fileSize: nat, bufferSize: nat, l: Loop)
    requires ContainsQueried(w) && bufferSize > 0 && l.i < fileSize
    ensures var next := Turn(w, fileSize, bufferSize, l);
            || Uncovered(next.chunks, fileSize) < Uncovered(l.chunks, fileSize)
            || (next.chunks == l.chunks && l.i < next.i)
  {
    var ms := w.scan(l.start, l.i);
    if FirstAccepted(w, fileSize, l.chunks, l.start, ms).Some? {
      FoundChunk(w, fileSize, l.chunks, l.start, ms);
    }
  }

  /**
   The scan ends although it may go back, because every chunk found covers a byte that was not covered
   before.
   */
  lemma {:induction false} ScanEnds(w: World, fileSize: nat, bufferSize: nat, l: Loop) returns (turns: nat)
    requires ContainsQueried(w) && bufferSize > 0
    ensures EndsIn(w, fileSize, bufferSize, l, turns) && Ends(w, fileSize, bufferSize, l)
    decreases Uncovered(l.chunks, fileSize), fileSize - l.i
  {
    turns := 0;
    if l.i < fileSize {
      TurnProgresses(w, fileSize, bufferSize, l);
      turns := ScanEnds(w, fileSize, bufferSize, Turn(w, fileSize, bufferSize, l));
      turns := turns + 1;
    }
    assert EndsIn(w, fileSize, bufferSize, l, turns);
  }

  /**
   At all times every chunk lies in the file; with handlers that start at their match, each starts behind
   the previous one.
   */
  lemma {:induction false} ScanIsOrderly(w: World, fileSize: nat, bufferSize: nat, l: Loop, turns: nat)
    requires InBounds(l.chunks, fileSize)
    requires StartsAtMatch(w) ==> InSequence(l.chunks) && l.start == EndOf(l.chunks)
    ensures InBounds(Iterate(w, fileSize, bufferSize, l, turns).chunks, fileSize)
    ensures StartsAtMatch(w) ==> InSequence(Iterate(w, fileSize, bufferSize, l, turns).chunks)
    decreases turns
  {
    if turns > 0 && l.i < fileSize {
      hide StartsAtMatch, Turn;
      TurnIsOrderly(w, fileSize, bufferSize, l);
      ScanIsOrderly(w, fileSize, bufferSize, Turn(w, fileSize, bufferSize, l), turns - 1);
    }
  }

  lemma TurnIsOrderly(w: World, fileSize: nat, bufferSize: nat, l: Loop)
    requires InBounds(l.chunks, fileSize)
    requires StartsAtMatch(w) ==> InSequence(l.chunks) && l.start == EndOf(l.chunks)
    ensures var next := Turn(w, fileSize, bufferSize, l);
            && InBounds(next.chunks, fileSize)
            && (StartsAtMatch(w) ==> InSequence(next.chunks) && next.start == EndOf(next.chunks))
  {
    hide FirstAccepted, StartsAtMatch, ContainsQueried;
    var ms := w.scan(l.start, l.i);
    if FirstAccepted(w, fileSize, l.chunks, l.start, ms).Some? {
      FoundChunk(w, fileSize, l.chunks, l.start, ms);
    }
  }

  // ---- what is found, and what is passed over ----

  /** A match leads to a chunk: the handler finds it where its format starts, outside the chunks and inside the file. */
  predicate LeadsTo(w: World, fileSize: nat, chunks: seq<Chunk>, start: nat, m: Match, c: Chunk) {
    var at := start + m.offset + w.matchOffset(m.handler);
    && 0 <= at < 0x8000_0000_0000_0000
    && (forall k :: 0 <= k < |chunks| ==> at < chunks[k].start || chunks[k].end <= at)
    && w.calculate(m.handler, at) == Some(c) && c.end <= fileSize
  }

  /** It does not: its format would start outside of what can be addressed or inside a chunk, or none fits there. */
  predicate Declined(w: World, fileSize: nat, chunks: seq<Chunk>, start: nat, m: Match) {
    var at := start + m.offset + w.matchOffset(m.handler);
    || at < 0 || at >= 0x8000_0000_0000_0000
    || (exists k :: 0 <= k < |chunks| && chunks[k].start <= at < chunks[k].end)
    || w.calculate(m.handler, at) == None
    || w.calculate(m.handler, at).value.end > fileSize
  }

  lemma AcceptMeans(w: World, fileSize: nat, chunks: seq<Chunk>, start: nat, m: Match)
    ensures match Accept(w, fileSize, chunks, start, m)
            case None => Declined(w, fileSize, chunks, start, m)
            case Some(c) => LeadsTo(w, fileSize, chunks, start, m, c)
  {
    var at := start + m.offset + w.matchOffset(m.handler);
    if Occupied(chunks, at) {
      var k :| 0 <= k < |chunks| && ContainsOffset(chunks[k], at);
      assert chunks[k].start <= at < chunks[k].end;
    } else {
      forall k | 0 <= k < |chunks|
        ensures at < chunks[k].start || chunks[k].end <= at
      {
        assert !ContainsOffset(chunks[k], at);
      }
    }
  }

  ghost predicate AllDeclined(w: World, fileSize: nat, chunks: seq<Chunk>, start: nat, ms: seq<Match>) {
    forall q :: 0 <= q < |ms| ==> Declined(w, fileSize, chunks, start, ms[q])
  }

  /** Of the matches of a block the first that leads to a chunk counts. */
  lemma {:induction false} FirstMeans(w: World, fileSize: nat, chunks: seq<Chunk>, start: nat, ms: seq<Match>)
    returns (q: nat)
    ensures match FirstAccepted(w, fileSize, chunks, start, ms)
            case None => AllDeclined(w, fileSize, chunks, start, ms)
            case Some(c) =>
              && q < |ms| && LeadsTo(w, fileSize, chunks, start, ms[q], c)
              && AllDeclined(w, fileSize, chunks, start, ms[..q])
  {
    hide Accept, LeadsTo, Declined;
    q := 0;
    if ms != [] {
      AcceptMeans(w, fileSize, chunks, start, ms[0]);
      if Accept(w, fileSize, chunks, start, ms[0]).None? {
        q := FirstMeans(w, fileSize, chunks, start, ms[1..]);
        q := q + 1;
      }
    }
  }

  lemma {:induction false} OneTurnFurther(w: World, fileSize: nat, bufferSize: nat, l: Loop, turns: nat)
    requires turns > 0 && Iterate(w, fileSize, bufferSize, l, turns - 1).i < fileSize
    ensures Iterate(w, fileSize, bufferSize, l, turns) ==
            Turn(w, fileSize, bufferSize, Iterate(w, fileSize, bufferSize, l, turns - 1))
    decreases turns
  {
    hide Turn;
    if turns > 1 && l.i < fileSize {
      OneTurnFurther(w, fileSize, bufferSize, Turn(w, fileSize, bufferSize, l), turns - 1);
    }
  }

  lemma {:induction false} NoTurnAtTheEnd(w: World, fileSize: nat, bufferSize: nat, l: Loop, turns: nat)
    requires turns > 0 && Iterate(w, fileSize, bufferSize, l, turns - 1).i >= fileSize
    ensures Iterate(w, fileSize, bufferSize, l, turns) == Iterate(w, fileSize, bufferSize, l, turns - 1)
    decreases turns
  {
    hide Turn;
    if turns > 1 && l.i < fileSize {
      NoTurnAtTheEnd(w, fileSize, bufferSize, Turn(w, fileSize, bufferSize, l), turns - 1);
    }
  }

  /** The stream a chunk was found in began at the end of the chunk before. */
  function StreamOf(chunks: seq<Chunk>): int {
    if chunks == [] then 0 else chunks[|chunks| - 1].end
  }

  /**
   Every chunk that is ever found was computed for a match of the stream that began behind the chunk before,
   at the place where the handler's format starts; and no match before that one led to a chunk.
   */
  lemma {:induction false} FoundForMatch(w: World, fileSize: nat, bufferSize: nat, turns: nat, k: nat)
    returns (n: nat, q: nat)
    requires k < |Iterate(w, fileSize, bufferSize, AT_START, turns).chunks|
    ensures n < turns
    ensures var was := Iterate(w, fileSize, bufferSize, AT_START, n);
            var now := Iterate(w, fileSize, bufferSize, AT_START, turns);
            && was.chunks == now.chunks[..k] && was.start == StreamOf(was.chunks)
            && q < |w.scan(was.start, was.i)|
            && LeadsTo(w, fileSize, was.chunks, was.start, w.scan(was.start, was.i)[q], now.chunks[k])
            && AllDeclined(w, fileSize, was.chunks, was.start, w.scan(was.start, was.i)[..q])
    decreases turns
  {
    hide LeadsTo, AllDeclined, FirstAccepted;
    var was := Iterate(w, fileSize, bufferSize, AT_START, turns - 1);
    if was.i >= fileSize {
      NoTurnAtTheEnd(w, fileSize, bufferSize, AT_START, turns);
      n, q := FoundForMatch(w, fileSize, bufferSize, turns - 1, k);
    } else {
      OneTurnFurther(w, fileSize, bufferSize, AT_START, turns);
      if k < |was.chunks| {
        n, q := FoundForMatch(w, fileSize, bufferSize, turns - 1, k);
      } else {
        n := turns - 1;
        q := FirstMeans(w, fileSize, was.chunks, was.start, w.scan(was.start, was.i));
        StreamBegins(w, fileSize, bufferSize, turns - 1);
      }
    }
  }

  lemma {:induction false} StreamBegins(w: World, fileSize: nat, bufferSize: nat, turns: nat)
    ensures var now := Iterate(w, fileSize, bufferSize, AT_START, turns); now.start == StreamOf(now.chunks)
    decreases turns
  {
    hide FirstAccepted;
    if turns > 0 {
      StreamBegins(w, fileSize, bufferSize, turns - 1);
      if Iterate(w, fileSize, bufferSize, AT_START, turns - 1).i >= fileSize {
        NoTurnAtTheEnd(w, fileSize, bufferSize, AT_START, turns);
      } else {
        OneTurnFurther(w, fileSize, bufferSize, AT_START, turns);
      }
    }
  }

  /** `n` blocks of the present stream lie behind, and none of their matches leads to a chunk. */
  ghost predicate SearchedInVain(w: World, fileSize: nat, bufferSize: nat, l: Loop, n: nat) {
    && l.i == l.start + n * bufferSize
    && forall j :: 0 <= j < n ==>
         AllDeclined(w, fileSize, l.chunks, l.start, w.scan(l.start, Block(l.start, j, bufferSize)))
  }

  function Block(start: nat, j: nat, bufferSize: nat): nat {
    start + j * bufferSize
  }

  /**
   At all times no match in any block since the last chunk leads to a chunk; at the end, no match in the rest
   of the file.
   */
  lemma {:induction false} ScanIsExhaustive(w: World, fileSize: nat, bufferSize: nat, turns: nat) returns (n: nat)
    ensures SearchedInVain(w, fileSize, bufferSize, Iterate(w, fileSize, bufferSize, AT_START, turns), n)
    decreases turns
  {
    n := 0;
    if turns > 0 {
      n := ScanIsExhaustive(w, fileSize, bufferSize, turns - 1);
      var was := Iterate(w, fileSize, bufferSize, AT_START, turns - 1);
      if was.i >= fileSize {
        NoTurnAtTheEnd(w, fileSize, bufferSize, AT_START, turns);
      } else {
        OneTurnFurther(w, fileSize, bufferSize, AT_START, turns);
        n := OneBlockMore(w, fileSize, bufferSize, was, n);
      }
    }
  }

  lemma OneBlockMore(w: World, fileSize: nat, bufferSize: nat, l: Loop, n: nat) returns (more: nat)
    requires SearchedInVain(w, fileSize, bufferSize, l, n)
    ensures SearchedInVain(w, fileSize, bufferSize, Turn(w, fileSize, bufferSize, l), more)
  {
    hide AllDeclined, FirstAccepted;
    var q := FirstMeans(w, fileSize, l.chunks, l.start, w.scan(l.start, l.i));
    if FirstAccepted(w, fileSize, l.chunks, l.start, w.scan(l.start, l.i)).Some? {
      more := 0;
    } else {
      more := n + 1;
      assert (n + 1) * bufferSize == n * bufferSize + bufferSize;
    }
  }

  // ---- the scan ----

  class Context {
    const fileSize: nat
    var allChunks: seq<Chunk>
    var startOffset: nat

    constructor (fileSize: nat)
      ensures this.fileSize == fileSize && allChunks == [] && startOffset == 0
    {
      this.fileSize := fileSize;
      allChunks, startOffset := [], 0;
    }

    /** The callback; the scan of the block ends when it has found a chunk. */
    method HyperscanMatch(w: World, m: Match) returns (terminate: bool)
      modifies this
      ensures var c := Accept(w, fileSize, old(allChunks), old(startOffset), m);
              && terminate == c.Some?
              && allChunks == (if c.Some? then old(allChunks) + [c.value] else old(allChunks))
              && startOffset == if c.Some? then c.value.end else old(startOffset)
    {
      var offset := m.offset + startOffset;
      var realOffset := offset + w.matchOffset(m.handler);
      if realOffset < 0 || realOffset > MAXSIZE {
        return false;
      }
      if Occupied(allChunks, realOffset) {
        return false;
      }
      var chunk := w.calculate(m.handler, realOffset);
      if chunk == None {
        return false;
      }
      if chunk.value.end > fileSize {
        return false;
      }
      allChunks := allChunks + [chunk.value];
      startOffset := chunk.value.end;
      terminate := true;
    }

    /** Feeds the matches of one block to the callback. */
    method ScanBlock(w: World, i: nat) returns (terminate: bool)
      modifies this
      ensures var c := FirstAccepted(w, fileSize, old(allChunks), old(startOffset), w.scan(old(startOffset), i));
              && terminate == c.Some?
              && allChunks == (if c.Some? then old(allChunks) + [c.value] else old(allChunks))
              && startOffset == if c.Some? then c.value.end else old(startOffset)
    {
      var ms := w.scan(startOffset, i);
      for k := 0 to |ms|
        invariant allChunks == old(allChunks) && startOffset == old(startOffset)
        invariant FirstAccepted(w, fileSize, allChunks, startOffset, ms) ==
                  FirstAccepted(w, fileSize, allChunks, startOffset, ms[k..])
      {
        assert ms[k..][0] == ms[k] && ms[k..][1..] == ms[k + 1..];
        terminate := HyperscanMatch(w, ms[k]);
        if terminate {
          return;
        }
      }
      terminate := false;
    }

    /** Scans the whole file in blocks. */
    method StreamScanChunks(w: World, bufferSize: nat)
      requires Ends(w, fileSize, bufferSize, Loop(startOffset, startOffset, allChunks))
      modifies this
      ensures var end := ScanFrom(w, fileSize, bufferSize, Loop(old(startOffset), old(startOffset), old(allChunks)));
              allChunks == end.chunks && startOffset == end.start
    {
      var i: nat := startOffset;
      ghost var first := Loop(startOffset, startOffset, allChunks);
      ghost var turns: nat :| EndsIn(w, fileSize, bufferSize, first, turns);
      ScanIs(w, fileSize, bufferSize, first, turns);
      while i < fileSize
        invariant EndsIn(w, fileSize, bufferSize, Loop(i, startOffset, allChunks), turns)
        invariant ScanFrom(w, fileSize, bufferSize, first) ==
                  Iterate(w, fileSize, bufferSize, Loop(i, startOffset, allChunks), turns)
        decreases turns
      {
        var terminate := ScanBlock(w, i);
        if terminate {
          i := startOffset;
        } else {
          i := i + bufferSize;
        }
        turns := turns - 1;
      }
    }
  }

  /** All chunks of a file. */
  method SearchChunks(w: World, fileSize: nat, bufferSize: nat) returns (chunks: seq<Chunk>)
    requires SearchEnds(w, fileSize, bufferSize)
    ensures chunks == ScanFrom(w, fileSize, bufferSize, AT_START).chunks
  {
    var context := new Context(fileSize);
    context.StreamScanChunks(w, bufferSize);
    chunks := context.allChunks;
  }

  // ---- a handler whose chunk need not contain the offset it was asked about ----

  const SYSTEM_AREA_SIZE := 0x8000
  const PATTERN_LEN := 6

  /** An ISO 9660 volume descriptor, its place in the file and the product of the sizes in it. */
  datatype Descriptor = Descriptor(at: nat, size: nat)

  /** The handler goes back over the system area, wherever the descriptor stands behind it. */
  function IsoChunk(d: Descriptor): Option<Chunk> {
    var start := d.at - SYSTEM_AREA_SIZE;
    if start < 0 || d.size == 0 then None else Some(Chunk(0, start, start + d.size))
  }

  function IsoCalculate(ds: seq<Descriptor>, offset: nat): Option<Chunk> {
    if ds == [] then None else if ds[0].at == offset then IsoChunk(ds[0]) else IsoCalculate(ds[1..], offset)
  }

  /** The matches in a block of a stream; each is reported with the block in which the pattern ends. */
  function IsoMatches(ds: seq<Descriptor>, start: nat, i: nat, bufferSize: nat): seq<Match> {
    if ds == [] then []
    else
      var later := IsoMatches(ds[1..], start, i, bufferSize);
      if start <= ds[0].at && i < ds[0].at + PATTERN_LEN <= i + bufferSize then [Match(0, ds[0].at - start)] + later
      else later
  }

  /** A file with some volume descriptors. */
  function Iso(ds: seq<Descriptor>, bufferSize: nat): World {
    World((start: nat, i: nat) => IsoMatches(ds, start, i, bufferSize), h => 0, (h, o) => IsoCalculate(ds, o))
  }

  ghost predicate IsoFile(ds: seq<Descriptor>, fileSize: nat, bufferSize: nat) {
    && bufferSize > 0 && fileSize <= MAXSIZE
    && (forall j, k :: 0 <= j < k < |ds| ==> ds[j].at < ds[k].at)
    && (forall k :: 0 <= k < |ds| ==> ds[k].at + PATTERN_LEN <= fileSize)
  }

  /** The chunk that a descriptor leads to. */
  function IsoAccept(d: Descriptor, fileSize: nat, chunks: seq<Chunk>): Option<Chunk> {
    if Occupied(chunks, d.at) then None
    else match IsoChunk(d)
      case None => None
      case Some(c) => if c.end > fileSize then None else Some(c)
  }

  /** The descriptors that lead to chunks, when each is looked at once. */
  function Taken(ds: seq<Descriptor>, fileSize: nat, chunks: seq<Chunk>): seq<Descriptor> {
    if ds == [] then []
    else match IsoAccept(ds[0], fileSize, chunks)
      case None => Taken(ds[1..], fileSize, chunks)
      case Some(c) => [ds[0]] + Taken(ds[1..], fileSize, chunks + [c])
  }

  /** The descriptor lies behind the chunk that is computed for it. */
  predicate Overlooked(d: Descriptor) {
    d.at >= SYSTEM_AREA_SIZE && 1 <= d.size <= SYSTEM_AREA_SIZE
  }

  ghost predicate NoneOverlooked(ds: seq<Descriptor>) {
    forall k :: 0 <= k < |ds| ==> !Overlooked(ds[k])
  }

  /** Of the descriptors before `k` nothing more is to come, and of the others only from the present place on. */
  ghost predicate Past(ds: seq<Descriptor>, fileSize: nat, l: Loop, k: nat) {
    && k <= |ds|
    && (forall j :: 0 <= j < k ==> IsoAccept(ds[j], fileSize, l.chunks).None?)
    && (forall j :: k <= j < |ds| ==>
          IsoAccept(ds[j], fileSize, l.chunks).None? || (l.start <= ds[j].at && l.i < ds[j].at + PATTERN_LEN))
  }

  lemma {:induction false} IsoFinds(ds: seq<Descriptor>, k: nat)
    requires k < |ds| && forall j :: 0 <= j < k ==> ds[j].at < ds[k].at
    ensures IsoCalculate(ds, ds[k].at) == IsoChunk(ds[k])
  {
    if k > 0 {
      IsoFinds(ds[1..], k - 1);
    }
  }

  lemma AcceptIs(ds: seq<Descriptor>, fileSize: nat, bufferSize: nat, l: Loop, k: nat)
    requires IsoFile(ds, fileSize, bufferSize) && k < |ds| && l.start <= ds[k].at
    ensures Accept(Iso(ds, bufferSize), fileSize, l.chunks, l.start, Match(0, ds[k].at - l.start)) ==
            IsoAccept(ds[k], fileSize, l.chunks)
  {
    IsoFinds(ds, k);
  }

  function InBlock(w: World, ds: seq<Descriptor>, fileSize: nat, bufferSize: nat, l: Loop): Option<Chunk> {
    FirstAccepted(w, fileSize, l.chunks, l.start, IsoMatches(ds, l.start, l.i, bufferSize))
  }

  /** Descriptors that lead to nothing do not matter. */
  lemma {:induction false} PassedOver(ds: seq<Descriptor>, fileSize: nat, bufferSize: nat, l: Loop, j: nat, k: nat)
    requires IsoFile(ds, fileSize, bufferSize) && j <= k <= |ds|
    requires forall n :: j <= n < k ==> IsoAccept(ds[n], fileSize, l.chunks).None?
    ensures InBlock(Iso(ds, bufferSize), ds[j..], fileSize, bufferSize, l) ==
            InBlock(Iso(ds, bufferSize), ds[k..], fileSize, bufferSize, l)
    decreases k - j
  {
    hide Accept, IsoAccept, Iso, IsoFile;
    if j < k {
      assert ds[j..][0] == ds[j] && ds[j..][1..] == ds[j + 1..];
      PassedOver(ds, fileSize, bufferSize, l, j + 1, k);
      if l.start <= ds[j].at {
        AcceptIs(ds, fileSize, bufferSize, l, j);
      }
    }
  }

  lemma {:induction false} NoneInBlock(ds: seq<Descriptor>, fileSize: nat, bufferSize: nat, l: Loop, k: nat)
    requires IsoFile(ds, fileSize, bufferSize) && k <= |ds|
    requires k < |ds| ==> l.i + bufferSize < ds[k].at + PATTERN_LEN
    ensures IsoMatches(ds[k..], l.start, l.i, bufferSize) == []
    decreases |ds| - k
  {
    if k < |ds| {
      assert ds[k..][0] == ds[k] && ds[k..][1..] == ds[k + 1..];
      NoneInBlock(ds, fileSize, bufferSize, l, k + 1);
    }
  }

  lemma WholeBlock(ds: seq<Descriptor>, fileSize: nat, bufferSize: nat, l: Loop)
    ensures FirstAccepted(Iso(ds, bufferSize), fileSize, l.chunks, l.start, Iso(ds, bufferSize).scan(l.start, l.i)) ==
            InBlock(Iso(ds, bufferSize), ds[0..], fileSize, bufferSize, l)
  {
    assert ds[0..] == ds;
  }

  /** The next turn finds the first descriptor that leads to a chunk, when it comes to it. */
  lemma IsoTurn(ds: seq<Descriptor>, fileSize: nat, bufferSize: nat, l: Loop, k: nat)
    requires IsoFile(ds, fileSize, bufferSize) && Past(ds, fileSize, l, k)
    requires k < |ds| ==> IsoAccept(ds[k], fileSize, l.chunks).Some?
    ensures Turn(Iso(ds, bufferSize), fileSize, bufferSize, l) ==
            if k < |ds| && ds[k].at + PATTERN_LEN <= l.i + bufferSize then
              var c := IsoAccept(ds[k], fileSize, l.chunks).value;
              Loop(c.end, c.end, l.chunks + [c])
            else l.(i := l.i + bufferSize)
  {
    hide Accept, IsoAccept, Iso, IsoFile;
    WholeBlock(ds, fileSize, bufferSize, l);
    PassedOver(ds, fileSize, bufferSize, l, 0, k);
    if k < |ds| && ds[k].at + PATTERN_LEN <= l.i + bufferSize {
      assert ds[k..][0] == ds[k];
      AcceptIs(ds, fileSize, bufferSize, l, k);
    } else {
      NoneInBlock(ds, fileSize, bufferSize, l, k);
    }
  }

  lemma OneTurnMore(w: World, fileSize: nat, bufferSize: nat, l: Loop)
    requires l.i < fileSize
    ensures Ends(w, fileSize, bufferSize, l) <==> Ends(w, fileSize, bufferSize, Turn(w, fileSize, bufferSize, l))
  {
    var next := Turn(w, fileSize, bufferSize, l);
    if turns: nat :| EndsIn(w, fileSize, bufferSize, l, turns) {
      assert EndsIn(w, fileSize, bufferSize, next, turns - 1);
    }
    if turns: nat :| EndsIn(w, fileSize, bufferSize, next, turns) {
      assert EndsIn(w, fileSize, bufferSize, l, turns + 1);
    }
  }

  /** With nothing more to come the search goes to the end of the file. */
  lemma {:induction false} NothingMore(ds: seq<Descriptor>, fileSize: nat, bufferSize: nat, l: Loop)
    requires IsoFile(ds, fileSize, bufferSize) && Past(ds, fileSize, l, |ds|)
    ensures Ends(Iso(ds, bufferSize), fileSize, bufferSize, l)
    decreases fileSize - l.i
  {
    hide Iso, Turn;
    var w := Iso(ds, bufferSize);
    if l.i >= fileSize {
      assert EndsIn(w, fileSize, bufferSize, l, 0);
    } else {
      IsoTurn(ds, fileSize, bufferSize, l, |ds|);
      OneTurnMore(w, fileSize, bufferSize, l);
      NothingMore(ds, fileSize, bufferSize, l.(i := l.i + bufferSize));
    }
  }

  lemma MoreIsOccupied(d: Descriptor, fileSize: nat, chunks: seq<Chunk>, c: Chunk)
    ensures IsoAccept(d, fileSize, chunks).None? || ContainsOffset(c, d.at) ==>
              IsoAccept(d, fileSize, chunks + [c]).None?
    ensures !ContainsOffset(c, d.at) ==> IsoAccept(d, fileSize, chunks + [c]) == IsoAccept(d, fileSize, chunks)
  {
    OccupiedStays(chunks, c, d.at);
  }

  /** A chunk that contains its descriptor leaves that one and those before behind. */
  lemma PastNext(ds: seq<Descriptor>, fileSize: nat, bufferSize: nat, l: Loop, k: nat)
    requires IsoFile(ds, fileSize, bufferSize) && Past(ds, fileSize, l, k) && k < |ds|
    requires IsoAccept(ds[k], fileSize, l.chunks).Some? && !Overlooked(ds[k])
    ensures var c := IsoAccept(ds[k], fileSize, l.chunks).value;
            Past(ds, fileSize, Loop(c.end, c.end, l.chunks + [c]), k + 1)
  {
    var c := IsoAccept(ds[k], fileSize, l.chunks).value;
    assert ContainsOffset(c, ds[k].at);
    hide IsoAccept, Overlooked, IsoChunk;
    forall j | 0 <= j < |ds|
      ensures j <= k || ds[j].at < c.end ==> IsoAccept(ds[j], fileSize, l.chunks + [c]).None?
    {
      MoreIsOccupied(ds[j], fileSize, l.chunks, c);
    }
  }

  /** Ahead of an overlooked descriptor, the first that leads to a chunk. */
  ghost predicate Caught(ds: seq<Descriptor>, fileSize: nat, l: Loop, k: nat) {
    && k < |ds| && Overlooked(ds[k]) && IsoAccept(ds[k], fileSize, l.chunks).Some?
    && l.start <= ds[k].at && l.i < ds[k].at + PATTERN_LEN
    && forall j :: 0 <= j < k ==> IsoAccept(ds[j], fileSize, l.chunks).None?
  }

  lemma CaughtTurn(ds: seq<Descriptor>, fileSize: nat, bufferSize: nat, l: Loop, k: nat)
    requires IsoFile(ds, fileSize, bufferSize) && Caught(ds, fileSize, l, k)
    ensures var next := Turn(Iso(ds, bufferSize), fileSize, bufferSize, l);
            && Caught(ds, fileSize, next, k)
            && if ds[k].at + PATTERN_LEN <= l.i + bufferSize
               then IsoChunk(ds[k]).Some? && next.chunks == l.chunks + [IsoChunk(ds[k]).value]
               else next == l.(i := l.i + bufferSize)
  {
    hide Iso, Turn, IsoFile;
    CaughtIsPast(ds, fileSize, bufferSize, l, k);
    IsoTurn(ds, fileSize, bufferSize, l, k);
    var c := IsoAccept(ds[k], fileSize, l.chunks).value;
    assert !ContainsOffset(c, ds[k].at) && c.end <= ds[k].at;
    hide IsoAccept;
    forall j | 0 <= j <= k
      ensures j < k ==> IsoAccept(ds[j], fileSize, l.chunks + [c]).None?
      ensures j == k ==> IsoAccept(ds[j], fileSize, l.chunks + [c]).Some?
    {
      MoreIsOccupied(ds[j], fileSize, l.chunks, c);
    }
  }

  lemma CaughtIsPast(ds: seq<Descriptor>, fileSize: nat, bufferSize: nat, l: Loop, k: nat)
    requires IsoFile(ds, fileSize, bufferSize) && Caught(ds, fileSize, l, k)
    ensures Past(ds, fileSize, l, k)
  {
    hide IsoAccept, Overlooked;
  }

  lemma {:induction false} CaughtForEver(
      ds: seq<Descriptor>, fileSize: nat, bufferSize: nat, l: Loop, k: nat, turns: nat)
    requires IsoFile(ds, fileSize, bufferSize) && Caught(ds, fileSize, l, k)
    ensures !EndsIn(Iso(ds, bufferSize), fileSize, bufferSize, l, turns)
    decreases turns
  {
    hide Iso, Turn, IsoAccept, Overlooked;
    if turns > 0 {
      CaughtTurn(ds, fileSize, bufferSize, l, k);
      CaughtForEver(ds, fileSize, bufferSize, Turn(Iso(ds, bufferSize), fileSize, bufferSize, l), k, turns - 1);
    }
  }

  /** From any place on: the search ends exactly when no descriptor that will be taken is overlooked. */
  lemma {:induction false} IsoEnds(ds: seq<Descriptor>, fileSize: nat, bufferSize: nat, l: Loop, k: nat)
    requires IsoFile(ds, fileSize, bufferSize) && Past(ds, fileSize, l, k)
    ensures Ends(Iso(ds, bufferSize), fileSize, bufferSize, l) <==> NoneOverlooked(Taken(ds[k..], fileSize, l.chunks))
    decreases |ds| - k, fileSize - l.i
  {
    hide Iso, Turn, IsoAccept, Overlooked, Ends;
    if k == |ds| {
      NothingMore(ds, fileSize, bufferSize, l);
    } else {
      assert ds[k..][0] == ds[k] && ds[k..][1..] == ds[k + 1..];
      if IsoAccept(ds[k], fileSize, l.chunks).None? {
        IsoEnds(ds, fileSize, bufferSize, l, k + 1);
      } else {
        var c := IsoAccept(ds[k], fileSize, l.chunks).value;
        IsoTurn(ds, fileSize, bufferSize, l, k);
        OneTurnMore(Iso(ds, bufferSize), fileSize, bufferSize, l);
        if Overlooked(ds[k]) {
          NeverEnds(ds, fileSize, bufferSize, l, k);
          assert Taken(ds[k..], fileSize, l.chunks)[0] == ds[k];
        } else if ds[k].at + PATTERN_LEN <= l.i + bufferSize {
          PastNext(ds, fileSize, bufferSize, l, k);
          IsoEnds(ds, fileSize, bufferSize, Loop(c.end, c.end, l.chunks + [c]), k + 1);
          NoneMore(ds[k], Taken(ds[k + 1..], fileSize, l.chunks + [c]));
        } else {
          IsoEnds(ds, fileSize, bufferSize, l.(i := l.i + bufferSize), k);
        }
      }
    }
  }

  lemma NoneMore(d: Descriptor, ds: seq<Descriptor>)
    requires !Overlooked(d)
    ensures NoneOverlooked([d] + ds) <==> NoneOverlooked(ds)
  {
    hide Overlooked;
    forall k | 0 <= k < |ds|
      ensures ([d] + ds)[k + 1] == ds[k]
    {
    }
  }

  lemma NeverEnds(ds: seq<Descriptor>, fileSize: nat, bufferSize: nat, l: Loop, k: nat)
    requires IsoFile(ds, fileSize, bufferSize) && Caught(ds, fileSize, l, k)
    ensures !Ends(Iso(ds, bufferSize), fileSize, bufferSize, l)
  {
    if turns: nat :| EndsIn(Iso(ds, bufferSize), fileSize, bufferSize, l, turns) {
      CaughtForEver(ds, fileSize, bufferSize, l, k, turns);
    }
  }

  /**
   The search ends exactly when the sizes in the descriptors it takes reach from the start of the image
   beyond them, or lead to no chunk.
   */
  lemma IsoSearchEnds(ds: seq<Descriptor>, fileSize: nat, bufferSize: nat)
    requires IsoFile(ds, fileSize, bufferSize)
    ensures SearchEnds(Iso(ds, bufferSize), fileSize, bufferSize) <==> NoneOverlooked(Taken(ds, fileSize, []))
  {
    hide IsoAccept;
    IsoEnds(ds, fileSize, bufferSize, AT_START, 0);
    assert ds[0..] == ds;
  }

  lemma IsoContains(ds: seq<Descriptor>, fileSize: nat, bufferSize: nat)
    requires IsoFile(ds, fileSize, bufferSize)
    ensures ContainsQueried(Iso(ds, bufferSize)) <==> NoneOverlooked(ds)
  {
    var w := Iso(ds, bufferSize);
    forall k | 0 <= k < |ds|
      ensures w.calculate(0, ds[k].at) == IsoChunk(ds[k])
    {
      IsoFinds(ds, k);
    }
    if ContainsQueried(w) {
      forall k | 0 <= k < |ds|
        ensures !Overlooked(ds[k])
      {
        assert w.calculate(0, ds[k].at) == IsoChunk(ds[k]);
      }
    }
    if NoneOverlooked(ds) {
      forall h: nat, o: nat | w.calculate(h, o).Some?
        ensures ContainsOffset(w.calculate(h, o).value, o)
      {
        var k := FoundAt(ds, o);
      }
    }
  }

  lemma {:induction false} FoundAt(ds: seq<Descriptor>, offset: nat) returns (k: nat)
    requires IsoCalculate(ds, offset).Some?
    ensures k < |ds| && ds[k].at == offset && IsoCalculate(ds, offset) == IsoChunk(ds[k])
  {
    k := 0;
    if ds[0].at != offset {
      k := FoundAt(ds[1..], offset);
      k := k + 1;
    }
  }

  function Copies(c: Chunk, count: nat): (r: seq<Chunk>)
    ensures |r| == count && forall k :: 0 <= k < count ==> r[k] == c
  {
    seq(count, _ => c)
  }

  /** As many copies of the chunk are found as one likes to wait for. */
  lemma {:induction false} FoundAgain(ds: seq<Descriptor>, fileSize: nat, bufferSize: nat, l: Loop, k: nat, count: nat)
    returns (turns: nat, c: Chunk)
    requires IsoFile(ds, fileSize, bufferSize) && Caught(ds, fileSize, l, k)
    ensures var now := Iterate(Iso(ds, bufferSize), fileSize, bufferSize, l, turns);
            now.i < fileSize && IsoChunk(ds[k]) == Some(c) && now.chunks == l.chunks + Copies(c, count)
    decreases count, ds[k].at + PATTERN_LEN - l.i
  {
    hide Iso, Turn, Overlooked;
    turns := 0;
    c := IsoChunk(ds[k]).value;
    hide IsoAccept, IsoChunk;
    if count == 0 {
      ConcatAssociates(l.chunks, [], []);
    } else {
      CaughtTurn(ds, fileSize, bufferSize, l, k);
      var next := Turn(Iso(ds, bufferSize), fileSize, bufferSize, l);
      if ds[k].at + PATTERN_LEN <= l.i + bufferSize {
        turns, c := FoundAgain(ds, fileSize, bufferSize, next, k, count - 1);
        ConcatAssociates(l.chunks, [c], Copies(c, count - 1));
        assert [c] + Copies(c, count - 1) == Copies(c, count);
      } else {
        turns, c := FoundAgain(ds, fileSize, bufferSize, next, k, count);
      }
      turns := turns + 1;
    }
  }

  lemma {:induction false} FoundForEver(
      ds: seq<Descriptor>, fileSize: nat, bufferSize: nat, l: Loop, k: nat, count: nat)
    returns (turns: nat, before: seq<Chunk>, n: nat, c: Chunk)
    requires IsoFile(ds, fileSize, bufferSize) && Past(ds, fileSize, l, k)
    requires !NoneOverlooked(Taken(ds[k..], fileSize, l.chunks))
    ensures n < |ds| && Overlooked(ds[n]) && IsoChunk(ds[n]) == Some(c)
    ensures var now := Iterate(Iso(ds, bufferSize), fileSize, bufferSize, l, turns);
            now.i < fileSize && now.chunks == before + Copies(c, count)
    decreases |ds| - k, fileSize - l.i
  {
    hide Iso, Turn, IsoAccept, Overlooked, IsoChunk;
    assert ds[k..][0] == ds[k] && ds[k..][1..] == ds[k + 1..];
    var next := IsoAccept(ds[k], fileSize, l.chunks);
    if next.None? {
      turns, before, n, c := FoundForEver(ds, fileSize, bufferSize, l, k + 1, count);
    } else if Overlooked(ds[k]) {
      turns, c := FoundAgain(ds, fileSize, bufferSize, l, k, count);
      before, n := l.chunks, k;
    } else {
      IsoTurn(ds, fileSize, bufferSize, l, k);
      var end := next.value.end;
      if ds[k].at + PATTERN_LEN <= l.i + bufferSize {
        PastNext(ds, fileSize, bufferSize, l, k);
        NoneMore(ds[k], Taken(ds[k + 1..], fileSize, l.chunks + [next.value]));
        turns, before, n, c := FoundForEver(
          ds, fileSize, bufferSize, Loop(end, end, l.chunks + [next.value]), k + 1, count);
      } else {
        turns, before, n, c := FoundForEver(ds, fileSize, bufferSize, l.(i := l.i + bufferSize), k, count);
      }
      turns := turns + 1;
    }
  }

  /** Otherwise it finds the chunk of an overlooked descriptor again and again, and nothing else from then on. */
  lemma ScanMayNotEnd(ds: seq<Descriptor>, fileSize: nat, bufferSize: nat, count: nat)
    returns (turns: nat, before: seq<Chunk>, n: nat, c: Chunk)
    requires IsoFile(ds, fileSize, bufferSize) && !NoneOverlooked(Taken(ds, fileSize, []))
    ensures n < |ds| && Overlooked(ds[n]) && IsoChunk(ds[n]) == Some(c)
    ensures var now := Iterate(Iso(ds, bufferSize), fileSize, bufferSize, AT_START, turns);
            now.i < fileSize && now.chunks == before + Copies(c, count)
  {
    hide Iso, Taken;
    assert ds[0..] == ds;
    turns, before, n, c := FoundForEver(ds, fileSize, bufferSize, AT_START, 0, count);
  }
}
