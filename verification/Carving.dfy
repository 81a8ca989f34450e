/**
 From the chunks found in a file to pieces of the file: the gaps between the chunks, which of them are
 padding, and carving.  Together the pieces make up the file.
 */
module Carving {
  import opened Bytes
  import opened Files
  import opened Chunks
  import opened Finder

  type Range = p: (int, int) | Constructible(p.0, p.1) witness (0, 1)

  /** The chunk constructor, as far as the offsets go. */
  function MakeRange(start: int, end: int): Result<Range> {
    if Constructible(start, end) then Ok((start, end)) else Err(InvalidInputFormat)
  }

  function ByOffset(): Chunk -> int { (c: Chunk) => c.start }

  // ---- gaps ----

  /** The gap between two offsets; none when they are equal, refused when they are in the wrong order. */
  function GapBetween(from: int, to: int): Result<seq<Range>>
    requires from >= 0
  {
    if from == to then Ok([])
    else if from < to then Ok([(from, to)])
    else Err(InvalidInputFormat)
  }

  /** The gaps before, between and after chunks in offset order, from `from` to the end of the file. */
  function Gaps(sorted: seq<Chunk>, from: int, fileSize: nat): Result<seq<Range>>
    requires from >= 0
    decreases |sorted|
  {
    if sorted == [] then Ok(if from < fileSize then [(from, fileSize)] else [])
    else match GapBetween(from, sorted[0].start)
      case Err(e) => Err(e)
      case Ok(gap) =>
        match Gaps(sorted[1..], sorted[0].end, fileSize)
        case Err(e) => Err(e)
        case Ok(rest) => Ok(gap + rest)
  }

  /** No gap is reported for a file without chunks: the whole file is not an unknown chunk. */
  function UnknownChunks(chunks: seq<Chunk>, fileSize: nat): Result<seq<Range>> {
    if chunks == [] || fileSize == 0 then Ok([]) else Gaps(SortBy(ByOffset(), chunks), 0, fileSize)
  }

  /** The result so far, when what remains is given by `rest`. */
  function Prepend(gaps: seq<Range>, rest: Result<seq<Range>>): Result<seq<Range>> {
    match rest case Ok(more) => Ok(gaps + more) case Err(e) => Err(e)
  }

  method CalculateUnknownChunks(chunks: seq<Chunk>, fileSize: nat) returns (r: Result<seq<Range>>)
    ensures r == UnknownChunks(chunks, fileSize)
  {
    if chunks == [] || fileSize == 0 {
      return Ok([]);
    }
    var sorted := SortBy(ByOffset(), chunks);
    SortKeepsLength(ByOffset(), chunks);
    var unknown: seq<Range> := [];
    var first := sorted[0];
    if first.start != 0 {
      unknown := [(0, first.start)];
    }
    assert Gaps(sorted, 0, fileSize) == Prepend(unknown, Gaps(sorted[1..], first.end, fileSize));
    for k := 1 to |sorted|
      invariant Gaps(sorted, 0, fileSize) == Prepend(unknown, Gaps(sorted[k..], sorted[k - 1].end, fileSize))
    {
      var diff := sorted[k].start - sorted[k - 1].end;
      GapStep(sorted, k, unknown, fileSize);
      ConcatAssociates(unknown, [], []);
      if diff != 0 {
        var gap := MakeRange(sorted[k - 1].end, sorted[k].start);
        if gap.Err? {
          return Err(gap.error);
        }
        unknown := unknown + [gap.value];
      }
    }
    ConcatAssociates(unknown, [], []);
    var last := sorted[|sorted| - 1];
    if last.end < fileSize {
      unknown := unknown + [(last.end, fileSize)];
    }
    return Ok(unknown);
  }

  lemma GapStep(sorted: seq<Chunk>, k: nat, gaps: seq<Range>, fileSize: nat)
    requires 1 <= k < |sorted|
    ensures Prepend(gaps, Gaps(sorted[k..], sorted[k - 1].end, fileSize)) ==
            match GapBetween(sorted[k - 1].end, sorted[k].start)
            case Err(e) => Err(e)
            case Ok(gap) => Prepend(gaps + gap, Gaps(sorted[k + 1..], sorted[k].end, fileSize))
  {
    assert sorted[k..][1..] == sorted[k + 1..];
    match GapBetween(sorted[k - 1].end, sorted[k].start)
    case Err(e) =>
    case Ok(gap) =>
      match Gaps(sorted[k + 1..], sorted[k].end, fileSize)
      case Err(e) =>
      case Ok(rest) => ConcatAssociates(gaps, gap, rest);
  }

  // ---- when there is an answer ----

  ghost predicate Disjoint(chunks: seq<Chunk>) {
    forall i, j :: 0 <= i < j < |chunks| ==> chunks[i].end <= chunks[j].start || chunks[j].end <= chunks[i].start
  }

  /** Each chunk starts at or after the end of the one before it. */
  ghost predicate Consecutive(sorted: seq<Chunk>, from: int) {
    sorted == [] || (from <= sorted[0].start && Consecutive(sorted[1..], sorted[0].end))
  }

  lemma {:induction false} GapsIffConsecutive(sorted: seq<Chunk>, from: int, fileSize: nat)
    requires from >= 0
    ensures Gaps(sorted, from, fileSize).Ok? <==> Consecutive(sorted, from)
    decreases |sorted|
  {
    if sorted != [] {
      GapsIffConsecutive(sorted[1..], sorted[0].end, fileSize);
    }
  }

  lemma {:induction false} ConsecutiveStarts(sorted: seq<Chunk>, from: int, k: nat)
    requires Consecutive(sorted, from) && k < |sorted|
    ensures from <= sorted[k].start
  {
    if k > 0 {
      ConsecutiveStarts(sorted[1..], sorted[0].end, k - 1);
    }
  }

  lemma {:induction false} ConsecutiveIsDisjoint(sorted: seq<Chunk>, from: int, i: nat, j: nat)
    requires Consecutive(sorted, from) && i < j < |sorted|
    ensures sorted[i].end <= sorted[j].start
  {
    if i == 0 {
      ConsecutiveStarts(sorted[1..], sorted[0].end, j - 1);
    } else {
      ConsecutiveIsDisjoint(sorted[1..], sorted[0].end, i - 1, j - 1);
    }
  }

  lemma {:induction false} DisjointIsConsecutive(sorted: seq<Chunk>, from: int)
    requires Ordered(ByOffset(), sorted) && Disjoint(sorted) && (sorted == [] || from <= sorted[0].start)
    ensures Consecutive(sorted, from)
  {
    if sorted != [] {
      DisjointIsConsecutive(sorted[1..], sorted[0].end);
    }
  }

  /** Disjointness, counted: no byte is in two chunks. */
  ghost predicate NoByteTwice(chunks: seq<Chunk>) {
    forall b :: Covering(chunks, b) <= 1
  }

  /** How many chunks of the list contain the byte. */
  function Covering(chunks: seq<Chunk>, b: int): nat {
    if chunks == [] then 0 else (if ContainsOffset(chunks[0], b) then 1 else 0) + Covering(chunks[1..], b)
  }

  lemma {:induction false} InsertCovering(key: Chunk -> int, c: Chunk, s: seq<Chunk>, b: int)
    ensures Covering(Insert(key, c, s), b) == Covering(s, b) + if ContainsOffset(c, b) then 1 else 0
  {
    if s != [] && key(c) > key(s[0]) {
      InsertCovering(key, c, s[1..], b);
    }
  }

  lemma {:induction false} SortCovering(key: Chunk -> int, s: seq<Chunk>, b: int)
    ensures Covering(SortBy(key, s), b) == Covering(s, b)
  {
    if s != [] {
      SortCovering(key, s[1..], b);
      InsertCovering(key, s[0], SortBy(key, s[1..]), b);
    }
  }

  lemma {:induction false} CoveringAt(chunks: seq<Chunk>, i: nat, b: int)
    requires i < |chunks| && ContainsOffset(chunks[i], b)
    ensures Covering(chunks, b) >= 1
  {
    if i > 0 {
      CoveringAt(chunks[1..], i - 1, b);
    }
  }

  lemma {:induction false} CoveringTwice(chunks: seq<Chunk>, i: nat, j: nat, b: int)
    requires i < j < |chunks| && ContainsOffset(chunks[i], b) && ContainsOffset(chunks[j], b)
    ensures Covering(chunks, b) >= 2
  {
    if i == 0 {
      CoveringAt(chunks[1..], j - 1, b);
    } else {
      CoveringTwice(chunks[1..], i - 1, j - 1, b);
    }
  }

  lemma {:induction false} CoveredAt(chunks: seq<Chunk>, b: int) returns (i: nat)
    requires Covering(chunks, b) >= 1
    ensures i < |chunks| && ContainsOffset(chunks[i], b)
  {
    if ContainsOffset(chunks[0], b) {
      i := 0;
    } else {
      i := CoveredAt(chunks[1..], b);
      i := i + 1;
    }
  }

  lemma {:induction false} DisjointCoversOnce(chunks: seq<Chunk>, b: int)
    requires Disjoint(chunks)
    ensures Covering(chunks, b) <= 1
  {
    if chunks != [] {
      DisjointCoversOnce(chunks[1..], b);
      if Covering(chunks[1..], b) >= 1 {
        var k := CoveredAt(chunks[1..], b);
        assert chunks[1..][k] == chunks[k + 1];
      }
    }
  }

  lemma DisjointIffNoByteTwice(chunks: seq<Chunk>)
    ensures Disjoint(chunks) <==> NoByteTwice(chunks)
  {
    if Disjoint(chunks) {
      forall b ensures Covering(chunks, b) <= 1 {
        DisjointCoversOnce(chunks, b);
      }
    }
    if NoByteTwice(chunks) {
      forall i, j | 0 <= i < j < |chunks|
        ensures chunks[i].end <= chunks[j].start || chunks[j].end <= chunks[i].start
      {
        var b := Max(chunks[i].start, chunks[j].start);
        if ContainsOffset(chunks[i], b) && ContainsOffset(chunks[j], b) {
          CoveringTwice(chunks, i, j, b);
        }
      }
    }
  }

  lemma SortedDisjoint(chunks: seq<Chunk>)
    ensures Disjoint(SortBy(ByOffset(), chunks)) <==> Disjoint(chunks)
  {
    var sorted := SortBy(ByOffset(), chunks);
    DisjointIffNoByteTwice(chunks);
    DisjointIffNoByteTwice(sorted);
    forall b ensures Covering(sorted, b) == Covering(chunks, b) {
      SortCovering(ByOffset(), chunks, b);
    }
  }

  /** The gaps of a non-empty file can be computed exactly when its chunks are pairwise disjoint. */
  lemma AnswerIffDisjoint(chunks: seq<Chunk>, fileSize: nat)
    requires fileSize > 0
    ensures UnknownChunks(chunks, fileSize).Ok? <==> Disjoint(chunks)
  {
    if chunks != [] {
      var sorted := SortBy(ByOffset(), chunks);
      SortKeepsLength(ByOffset(), chunks);
      SortedDisjoint(chunks);
      GapsIffConsecutive(sorted, 0, fileSize);
      if Consecutive(sorted, 0) {
        forall i, j | 0 <= i < j < |sorted| ensures sorted[i].end <= sorted[j].start {
          ConsecutiveIsDisjoint(sorted, 0, i, j);
        }
      } else if Disjoint(sorted) {
        SortOrders(ByOffset(), chunks);
        DisjointIsConsecutive(sorted, 0);
      }
    }
  }

  // ---- the pieces of the file ----

  /** Chunks and gaps in offset order. */
  function Tile(sorted: seq<Chunk>, from: int, fileSize: nat): seq<Range>
    requires from >= 0 && Consecutive(sorted, from)
    decreases |sorted|
  {
    if sorted == [] then (if from < fileSize then [(from, fileSize)] else [])
    else GapBetween(from, sorted[0].start).value + [(sorted[0].start, sorted[0].end)]
         + Tile(sorted[1..], sorted[0].end, fileSize)
  }

  /** The pieces lie end to end from `from` up to `to`: each byte between is in exactly one of them. */
  ghost predicate EndToEnd(pieces: seq<Range>, from: int, to: int) {
    if pieces == [] then from == to
    else pieces[0].0 == from && EndToEnd(pieces[1..], pieces[0].1, to)
  }

  function InPieces(pieces: seq<Range>, b: int): nat {
    if pieces == [] then 0 else (if pieces[0].0 <= b < pieces[0].1 then 1 else 0) + InPieces(pieces[1..], b)
  }

  lemma {:induction false} EndToEndPartitions(pieces: seq<Range>, from: int, to: int, b: int)
    requires EndToEnd(pieces, from, to)
    ensures InPieces(pieces, b) == (if from <= b < to then 1 else 0) && from <= to
  {
    if pieces != [] {
      EndToEndPartitions(pieces[1..], pieces[0].1, to, b);
    }
  }

  lemma EndToEndAfter(gap: seq<Range>, c: Range, rest: seq<Range>, from: int, to: int)
    requires 0 <= from <= c.0 && GapBetween(from, c.0) == Ok(gap) && EndToEnd(rest, c.1, to)
    ensures EndToEnd(gap + [c] + rest, from, to)
  {
    assert ([c] + rest)[1..] == rest;
    if gap == [] {
      ConcatAssociates([c], [], []);
      assert gap + [c] + rest == [c] + rest;
    } else {
      assert (gap + [c] + rest)[1..] == [c] + rest;
    }
  }

  lemma {:induction false} TileIsEndToEnd(sorted: seq<Chunk>, from: int, fileSize: nat)
    requires 0 <= from <= fileSize && Consecutive(sorted, from) && InBounds(sorted, fileSize)
    ensures EndToEnd(Tile(sorted, from, fileSize), from, fileSize)
    decreases |sorted|
  {
    if sorted != [] {
      var c := sorted[0];
      TileIsEndToEnd(sorted[1..], c.end, fileSize);
      EndToEndAfter(GapBetween(from, c.start).value, (c.start, c.end), Tile(sorted[1..], c.end, fileSize),
                    from, fileSize);
    }
  }

  /** The carved contents of the pieces, one after the other. */
  function CarveAll(data: seq<byte>, pieces: seq<Range>): seq<byte>
    requires forall k :: 0 <= k < |pieces| ==> pieces[k].1 <= |data|
  {
    if pieces == [] then [] else data[pieces[0].0..pieces[0].1] + CarveAll(data, pieces[1..])
  }

  lemma {:induction false} EndToEndReconstructs(data: seq<byte>, pieces: seq<Range>, from: int)
    requires 0 <= from && EndToEnd(pieces, from, |data|)
    ensures forall k :: 0 <= k < |pieces| ==> pieces[k].1 <= |data|
    ensures from <= |data| && CarveAll(data, pieces) == data[from..]
  {
    if pieces != [] {
      EndToEndReconstructs(data, pieces[1..], pieces[0].1);
      assert data[from..pieces[0].1] + data[pieces[0].1..] == data[from..];
    }
  }

  function RangesOf(chunks: seq<Chunk>): seq<Range> {
    if chunks == [] then [] else [(chunks[0].start, chunks[0].end)] + RangesOf(chunks[1..])
  }

  function Occurrences(pieces: seq<Range>, p: Range): nat {
    if pieces == [] then 0 else (if pieces[0] == p then 1 else 0) + Occurrences(pieces[1..], p)
  }

  lemma {:induction false} OccurrencesConcat(a: seq<Range>, b: seq<Range>, p: Range)
    ensures Occurrences(a + b, p) == Occurrences(a, p) + Occurrences(b, p)
  {
    if a == [] {
      ConcatAssociates(b, [], []);
    } else {
      OccurrencesConcat(a[1..], b, p);
      assert (a + b)[1..] == a[1..] + b;
    }
  }

  lemma {:induction false} InsertOccurrences(key: Chunk -> int, c: Chunk, s: seq<Chunk>, p: Range)
    ensures Occurrences(RangesOf(Insert(key, c, s)), p) ==
            Occurrences(RangesOf(s), p) + if (c.start, c.end) == p then 1 else 0
  {
    if s != [] && key(c) > key(s[0]) {
      InsertOccurrences(key, c, s[1..], p);
      assert Insert(key, c, s)[1..] == Insert(key, c, s[1..]);
    } else {
      assert Insert(key, c, s)[1..] == s;
    }
  }

  lemma {:induction false} SortOccurrences(key: Chunk -> int, s: seq<Chunk>, p: Range)
    ensures Occurrences(RangesOf(SortBy(key, s)), p) == Occurrences(RangesOf(s), p)
  {
    if s != [] {
      SortOccurrences(key, s[1..], p);
      InsertOccurrences(key, s[0], SortBy(key, s[1..]), p);
    }
  }

  /** The pieces are the chunks and the gaps, and nothing else. */
  lemma {:induction false} TileIsMerge(sorted: seq<Chunk>, from: int, fileSize: nat, p: Range)
    requires from >= 0 && Consecutive(sorted, from)
    ensures Gaps(sorted, from, fileSize).Ok?
    ensures Occurrences(Tile(sorted, from, fileSize), p) ==
            Occurrences(RangesOf(sorted), p) + Occurrences(Gaps(sorted, from, fileSize).value, p)
    decreases |sorted|
  {
    if sorted != [] {
      var c := sorted[0];
      var gap := GapBetween(from, c.start).value;
      var rest := Tile(sorted[1..], c.end, fileSize);
      TileIsMerge(sorted[1..], c.end, fileSize, p);
      OccurrencesConcat(gap + [(c.start, c.end)], rest, p);
      OccurrencesConcat(gap, [(c.start, c.end)], p);
      OccurrencesConcat(gap, Gaps(sorted[1..], c.end, fileSize).value, p);
      assert [(c.start, c.end)][1..] == [];
    }
  }

  function Pieces(chunks: seq<Chunk>, fileSize: nat): seq<Range>
    requires Disjoint(chunks)
  {
    DisjointIsSorted(chunks);
    Tile(SortBy(ByOffset(), chunks), 0, fileSize)
  }

  lemma DisjointIsSorted(chunks: seq<Chunk>)
    requires Disjoint(chunks)
    ensures Consecutive(SortBy(ByOffset(), chunks), 0)
  {
    SortedDisjoint(chunks);
    SortOrders(ByOffset(), chunks);
    DisjointIsConsecutive(SortBy(ByOffset(), chunks), 0);
  }

  lemma {:induction false} InsertInBounds(key: Chunk -> int, c: Chunk, s: seq<Chunk>, fileSize: nat)
    requires c.end <= fileSize && InBounds(s, fileSize)
    ensures InBounds(Insert(key, c, s), fileSize)
  {
    if s != [] && key(c) > key(s[0]) {
      InsertInBounds(key, c, s[1..], fileSize);
    }
  }

  lemma {:induction false} SortInBounds(key: Chunk -> int, s: seq<Chunk>, fileSize: nat)
    requires InBounds(s, fileSize)
    ensures InBounds(SortBy(key, s), fileSize)
  {
    if s != [] {
      SortInBounds(key, s[1..], fileSize);
      InsertInBounds(key, s[0], SortBy(key, s[1..]), fileSize);
    }
  }

  /**
   Disjoint chunks and the gaps between them, in offset order, lie end to end over the whole file, and
   their contents put together are the file.
   */
  ghost predicate MakeUp(data: seq<byte>, chunks: seq<Chunk>)
    requires Disjoint(chunks)
  {
    && UnknownChunks(chunks, |data|).Ok?
    && (forall p: Range :: Occurrences(Pieces(chunks, |data|), p) ==
          Occurrences(RangesOf(chunks), p) + Occurrences(UnknownChunks(chunks, |data|).value, p))
    && EndToEnd(Pieces(chunks, |data|), 0, |data|)
    && (forall k :: 0 <= k < |Pieces(chunks, |data|)| ==> Pieces(chunks, |data|)[k].1 <= |data|)
    && CarveAll(data, Pieces(chunks, |data|)) == data
  }

  lemma PiecesMakeUpTheFile(data: seq<byte>, chunks: seq<Chunk>)
    requires chunks != [] && data != [] && Disjoint(chunks) && InBounds(chunks, |data|)
    ensures MakeUp(data, chunks)
  {
    var sorted := SortBy(ByOffset(), chunks);
    DisjointIsSorted(chunks);
    SortInBounds(ByOffset(), chunks, |data|);
    TileIsEndToEnd(sorted, 0, |data|);
    EndToEndReconstructs(data, Pieces(chunks, |data|), 0);
    GapsIffConsecutive(sorted, 0, |data|);
    forall p: Range
      ensures Occurrences(Pieces(chunks, |data|), p) ==
              Occurrences(RangesOf(chunks), p) + Occurrences(UnknownChunks(chunks, |data|).value, p)
    {
      TileIsMerge(sorted, 0, |data|, p);
      SortOccurrences(ByOffset(), chunks, p);
    }
  }
}
