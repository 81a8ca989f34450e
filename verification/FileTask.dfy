/** The processing of one file: search, keep the outer chunks, compute the gaps, and carve. */
module FileTask {
  import opened Bytes
  import opened Files
  import opened Chunks
  import opened Finder
  import opened Carving

  predicate AllSame(s: seq<byte>) {
    s != [] && forall k :: 0 <= k < |s| ==> s[k] == s[0]
  }

  function Elements(s: seq<byte>): set<byte> {
    set b | b in s
  }

  lemma OneElement(s: seq<byte>)
    ensures |Elements(s)| == 1 <==> AllSame(s)
  {
    if s != [] {
      if AllSame(s) {
        assert Elements(s) == {s[0]};
      } else {
        var k :| 0 <= k < |s| && s[k] != s[0];
        Grows({s[0], s[k]}, Elements(s));
      }
    }
  }

  lemma Grows(a: set<byte>, b: set<byte>)
    requires a <= b
    ensures |a| <= |b|
  {
    if a != {} {
      var x :| x in a;
      Grows(a - {x}, b - {x});
    }
  }

  /** Whether a range holds one byte value only; reading stops at the first block that shows otherwise. */
  method IsPadding(file: File, p: Range, bufferSize: nat) returns (padding: bool)
    requires file.Valid() && p.1 <= |file.data| && bufferSize > 0
    modifies file
    ensures file.Valid() && padding == AllSame(file.data[p.0..p.1])
  {
    var r := IterateFile(file, p.0, p.1 - p.0, bufferSize);
    var blocks := r.value;
    var seen: set<byte> := {};
    for k := 0 to |blocks|
      invariant seen == Elements(Flatten(blocks[..k]))
    {
      assert blocks[..k + 1][..k] == blocks[..k];
      seen := seen + Elements(blocks[k]);
      assert seen == Elements(Flatten(blocks[..k + 1]));
      if |seen| > 1 {
        MoreThanOne(blocks, k + 1);
        return false;
      }
    }
    assert blocks[..|blocks|] == blocks;
    OneElement(Flatten(blocks));
    return |seen| == 1;
  }

  lemma MoreThanOne(blocks: seq<seq<byte>>, k: nat)
    requires k <= |blocks| && |Elements(Flatten(blocks[..k]))| > 1
    ensures !AllSame(Flatten(blocks))
  {
    PrefixElements(blocks, k);
    Grows(Elements(Flatten(blocks[..k])), Elements(Flatten(blocks)));
    OneElement(Flatten(blocks));
  }

  lemma {:induction false} PrefixElements(blocks: seq<seq<byte>>, k: nat)
    requires k <= |blocks|
    ensures Elements(Flatten(blocks[..k])) <= Elements(Flatten(blocks))
  {
    if k < |blocks| {
      PrefixElements(blocks[..|blocks| - 1], k);
      assert blocks[..|blocks| - 1][..k] == blocks[..k];
    } else {
      assert blocks[..k] == blocks;
    }
  }

  /** A gap between chunks, and whether it is padding. */
  datatype Gap = Gap(range: Range, padding: bool)

  ghost predicate Inside(data: seq<byte>, ranges: seq<Range>) {
    forall k :: 0 <= k < |ranges| ==> ranges[k].1 <= |data|
  }

  /** Each gap in order; padding are those that hold one byte value only. */
  ghost predicate Classified(data: seq<byte>, ranges: seq<Range>, gaps: seq<Gap>)
    requires Inside(data, ranges)
  {
    && |gaps| == |ranges|
    && forall k :: 0 <= k < |ranges| ==> gaps[k] == Gap(ranges[k], AllSame(data[ranges[k].0..ranges[k].1]))
  }

  method ProcessPatterns(file: File, gaps: seq<Range>, bufferSize: nat) returns (classified: seq<Gap>)
    requires file.Valid() && bufferSize > 0 && Inside(file.data, gaps)
    modifies file
    ensures file.Valid() && Classified(file.data, gaps, classified)
  {
    classified := [];
    for k := 0 to |gaps|
      invariant file.Valid() && |classified| == k
      invariant forall j :: 0 <= j < k ==> classified[j] == Gap(gaps[j], AllSame(file.data[gaps[j].0..gaps[j].1]))
    {
      var padding := IsPadding(file, gaps[k], bufferSize);
      classified := classified + [Gap(gaps[k], padding)];
    }
  }

  /** Writes a range of the file to a new file, block by block. */
  method Carve(file: File, p: Range, bufferSize: nat) returns (content: seq<byte>)
    requires file.Valid() && p.1 <= |file.data| && bufferSize > 0
    modifies file
    ensures file.Valid() && content == file.data[p.0..p.1]
  {
    var r := IterateFile(file, p.0, p.1 - p.0, bufferSize);
    var blocks := r.value;
    content := [];
    for k := 0 to |blocks|
      invariant content == Flatten(blocks[..k])
    {
      assert blocks[..k + 1][..k] == blocks[..k];
      content := content + blocks[k];
    }
    assert blocks[..|blocks|] == blocks;
  }

  /**
   What became of a file: nothing found, pieces that are reported only, one chunk that is the whole file,
   a directory in the way of carving, or carved pieces.
   */
  datatype Outcome =
    | NoChunks
    | Listed(gaps: seq<Gap>, chunks: seq<Chunk>)
    | CarveDirExists
    | WholeFile(chunk: Chunk)
    | Carved(gaps: seq<Gap>, chunks: seq<Chunk>, gapContents: seq<seq<byte>>, chunkContents: seq<seq<byte>>)

  /** The bytes of each range, in order. */
  ghost predicate AreContents(data: seq<byte>, ranges: seq<Range>, contents: seq<seq<byte>>)
    requires Inside(data, ranges)
  {
    && |contents| == |ranges|
    && forall k :: 0 <= k < |ranges| ==> contents[k] == data[ranges[k].0..ranges[k].1]
  }

  method CarveRanges(file: File, ranges: seq<Range>, bufferSize: nat) returns (contents: seq<seq<byte>>)
    requires file.Valid() && bufferSize > 0 && Inside(file.data, ranges)
    modifies file
    ensures file.Valid() && AreContents(file.data, ranges, contents)
  {
    contents := [];
    for k := 0 to |ranges|
      invariant file.Valid() && |contents| == k
      invariant forall j :: 0 <= j < k ==> contents[j] == file.data[ranges[j].0..ranges[j].1]
    {
      var content := Carve(file, ranges[k], bufferSize);
      contents := contents + [content];
    }
  }

  /** The chunks kept of those the search finds in a file. */
  ghost function Kept(w: World, fileSize: nat, bufferSize: nat): seq<Chunk>
    requires SearchEnds(w, fileSize, bufferSize)
  {
    var found := ScanFrom(w, fileSize, bufferSize, AT_START).chunks;
    Outermost(SortBy(BySize(), found), found)
  }

  lemma FoundIsOrderly(w: World, fileSize: nat, bufferSize: nat)
    requires SearchEnds(w, fileSize, bufferSize)
    ensures InBounds(ScanFrom(w, fileSize, bufferSize, AT_START).chunks, fileSize)
    ensures StartsAtMatch(w) ==> InSequence(ScanFrom(w, fileSize, bufferSize, AT_START).chunks)
  {
    var turns: nat :| EndsIn(w, fileSize, bufferSize, AT_START, turns);
    ScanIs(w, fileSize, bufferSize, AT_START, turns);
    ScanIsOrderly(w, fileSize, bufferSize, AT_START, turns);
  }

  lemma KeptInBounds(w: World, fileSize: nat, bufferSize: nat)
    requires SearchEnds(w, fileSize, bufferSize)
    ensures InBounds(Kept(w, fileSize, bufferSize), fileSize)
  {
    var found := ScanFrom(w, fileSize, bufferSize, AT_START).chunks;
    FoundIsOrderly(w, fileSize, bufferSize);
    SortInBounds(BySize(), found, fileSize);
    OutermostInBounds(SortBy(BySize(), found), found, fileSize);
  }

  lemma {:induction false} OutermostInBounds(s: seq<Chunk>, all: seq<Chunk>, fileSize: nat)
    requires InBounds(s, fileSize)
    ensures InBounds(Outermost(s, all), fileSize)
  {
    if s != [] {
      OutermostInBounds(s[..|s| - 1], all, fileSize);
    }
  }

  lemma {:induction false} GapsInBounds(sorted: seq<Chunk>, from: int, fileSize: nat)
    requires from >= 0 && InBounds(sorted, fileSize) && Gaps(sorted, from, fileSize).Ok?
    ensures var gaps := Gaps(sorted, from, fileSize).value;
            forall k :: 0 <= k < |gaps| ==> gaps[k].1 <= fileSize
    decreases |sorted|
  {
    if sorted != [] {
      GapsInBounds(sorted[1..], sorted[0].end, fileSize);
    }
  }

  lemma UnknownInBounds(chunks: seq<Chunk>, fileSize: nat)
    requires InBounds(chunks, fileSize) && UnknownChunks(chunks, fileSize).Ok?
    ensures var gaps := UnknownChunks(chunks, fileSize).value;
            forall k :: 0 <= k < |gaps| ==> gaps[k].1 <= fileSize
  {
    SortInBounds(ByOffset(), chunks, fileSize);
    if chunks != [] && fileSize > 0 {
      GapsInBounds(SortBy(ByOffset(), chunks), 0, fileSize);
    }
  }

  lemma {:induction false} RangesInBounds(chunks: seq<Chunk>, fileSize: nat)
    requires InBounds(chunks, fileSize)
    ensures |RangesOf(chunks)| == |chunks| && forall k :: 0 <= k < |chunks| ==> RangesOf(chunks)[k].1 <= fileSize
  {
    if chunks != [] {
      RangesInBounds(chunks[1..], fileSize);
    }
  }

  predicate IsWholeFile(chunks: seq<Chunk>, fileSize: nat) {
    |chunks| == 1 && (chunks[0].start, chunks[0].end) == (0, fileSize)
  }

  /** A chunk without gaps around it is the whole file. */
  lemma OnlyPiece(chunk: Chunk, fileSize: nat)
    requires fileSize > 0 && chunk.end <= fileSize
    ensures UnknownChunks([chunk], fileSize) == Ok([]) <==> IsWholeFile([chunk], fileSize)
  {
    var key := ByOffset();
    assert SortBy(key, [chunk][1..]) == [];
    assert SortBy(key, [chunk]) == [chunk];
    var gap, rest := GapBetween(0, chunk.start).value, if chunk.end < fileSize then [(chunk.end, fileSize)] else [];
    assert [chunk][1..] == [];
    assert Gaps([chunk], 0, fileSize) == Ok(gap + rest);
    assert |gap + rest| == |gap| + |rest|;
  }

  /** The outcome lists the kept chunks and all gaps between them, with their contents. */
  ghost predicate CarvedAs(data: seq<byte>, kept: seq<Chunk>, outcome: Outcome)
    requires outcome.Carved?
  {
    && outcome.chunks == kept && UnknownChunks(kept, |data|).Ok?
    && Inside(data, UnknownChunks(kept, |data|).value) && Inside(data, RangesOf(kept))
    && Classified(data, UnknownChunks(kept, |data|).value, outcome.gaps)
    && AreContents(data, UnknownChunks(kept, |data|).value, outcome.gapContents)
    && AreContents(data, RangesOf(kept), outcome.chunkContents)
  }

  /** Whatever the handlers, a file whose kept chunks do not overlap is made up of its pieces. */
  lemma ProcessedFileIsReconstructed(data: seq<byte>, w: World, bufferSize: nat)
    requires data != [] && SearchEnds(w, |data|, bufferSize) && Kept(w, |data|, bufferSize) != []
    ensures UnknownChunks(Kept(w, |data|, bufferSize), |data|).Ok? <==> Disjoint(Kept(w, |data|, bufferSize))
    ensures Disjoint(Kept(w, |data|, bufferSize)) ==> MakeUp(data, Kept(w, |data|, bufferSize))
  {
    var kept := Kept(w, |data|, bufferSize);
    AnswerIffDisjoint(kept, |data|);
    if Disjoint(kept) {
      KeptInBounds(w, |data|, bufferSize);
      PiecesMakeUpTheFile(data, kept);
    }
  }

  /** The reports list the kept chunks and all gaps between them. */
  ghost predicate ListedAs(data: seq<byte>, kept: seq<Chunk>, outcome: Outcome)
    requires outcome.Listed?
  {
    && outcome.chunks == kept && UnknownChunks(kept, |data|).Ok?
    && Inside(data, UnknownChunks(kept, |data|).value)
    && Classified(data, UnknownChunks(kept, |data|).value, outcome.gaps)
  }

  /**
   Processes a file.  It fails exactly when two kept chunks overlap; otherwise the gaps are the unknown
   chunks, each is classified, every range is carved as it is in the file, and the pieces make up the file.
   Nothing is carved without extraction, or into a directory that is there already.
   */
  method Process(file: File, w: World, bufferSize: nat, skipExtraction: bool, carveDirExists: bool)
    returns (r: Result<Outcome>)
    requires file.Valid() && file.data != [] && bufferSize > 0 && SearchEnds(w, |file.data|, bufferSize)
    modifies file
    ensures r.Ok? <==> Disjoint(Kept(w, |file.data|, bufferSize))
    ensures r.Ok? ==> (r.value == NoChunks <==> Kept(w, |file.data|, bufferSize) == [])
    ensures r.Ok? ==> (r.value.Listed? <==> Kept(w, |file.data|, bufferSize) != [] && skipExtraction)
    ensures r.Ok? && r.value.Listed? ==> ListedAs(file.data, Kept(w, |file.data|, bufferSize), r.value)
    ensures r.Ok? && Kept(w, |file.data|, bufferSize) != [] && !skipExtraction ==>
              && (r.value.WholeFile? <==> IsWholeFile(Kept(w, |file.data|, bufferSize), |file.data|))
              && (r.value.Carved? ==> !carveDirExists) && (r.value.CarveDirExists? ==> carveDirExists)
    ensures r.Ok? && r.value.WholeFile? ==>
              Kept(w, |file.data|, bufferSize) == [r.value.chunk]
              && (r.value.chunk.start, r.value.chunk.end) == (0, |file.data|)
    ensures r.Ok? && r.value.Carved? ==> CarvedAs(file.data, Kept(w, |file.data|, bufferSize), r.value)
    ensures r.Ok? && r.value != NoChunks ==> MakeUp(file.data, Kept(w, |file.data|, bufferSize))
  {
    var size := |file.data|;
    var allChunks := SearchChunks(w, size, bufferSize);
    var outer := RemoveInnerChunks(allChunks);
    KeptInBounds(w, size, bufferSize);
    AnswerIffDisjoint(outer, size);
    var unknown := CalculateUnknownChunks(outer, size);
    if unknown.Err? {
      return Err(unknown.error);
    }
    UnknownInBounds(outer, size);
    if outer != [] {
      ProcessedFileIsReconstructed(file.data, w, bufferSize);
    }
    var gaps := ProcessPatterns(file, unknown.value, bufferSize);
    if outer == [] && gaps == [] {
      return Ok(NoChunks);
    }
    if skipExtraction {
      return Ok(Listed(gaps, outer));
    }
    if |outer| == 1 {
      assert outer == [outer[0]];
      OnlyPiece(outer[0], size);
    }
    if |outer| + |unknown.value| == 1 {
      return Ok(WholeFile(outer[0]));
    }
    RangesInBounds(outer, size);
    if carveDirExists {
      return Ok(CarveDirExists);
    }
    var gapContents := CarveRanges(file, unknown.value, bufferSize);
    var chunkContents := CarveRanges(file, RangesOf(outer), bufferSize);
    return Ok(Carved(gaps, outer, gapContents, chunkContents));
  }

  /** Handlers that start at their match find disjoint chunks, of which none is inside another. */
  lemma InSequenceIsDisjoint(chunks: seq<Chunk>)
    requires InSequence(chunks)
    ensures Disjoint(chunks)
  {
    forall i, j | 0 <= i < j < |chunks|
      ensures chunks[i].end <= chunks[j].start
    {
      SequenceOrder(chunks, i, j);
    }
  }

  lemma {:induction false} SequenceOrder(chunks: seq<Chunk>, i: nat, j: nat)
    requires InSequence(chunks) && i < j < |chunks|
    ensures chunks[i].end <= chunks[j].start
    decreases j
  {
    if i < j - 1 {
      SequenceOrder(chunks, i, j - 1);
    }
  }

  lemma {:induction false} CoveringAppend(s: seq<Chunk>, c: Chunk, b: int)
    ensures Covering(s + [c], b) == Covering(s, b) + if ContainsOffset(c, b) then 1 else 0
  {
    if s == [] {
      assert Covering([c][1..], b) == 0;
      assert s + [c] == [c];
    } else {
      CoveringAppend(s[1..], c, b);
      assert (s + [c])[1..] == s[1..] + [c];
    }
  }

  lemma {:induction false} OutermostCovering(s: seq<Chunk>, all: seq<Chunk>, b: int)
    ensures Covering(Outermost(s, all), b) <= Covering(s, b)
  {
    if s != [] {
      var front, last := s[..|s| - 1], s[|s| - 1];
      OutermostCovering(front, all, b);
      CoveringAppend(front, last, b);
      CoveringAppend(Outermost(front, all), last, b);
      assert s == front + [last];
      ConcatAssociates(Outermost(front, all), [], []);
    }
  }

  /** So for them the search ends and processing never fails. */
  lemma StartsAtMatchNeverFails(w: World, fileSize: nat, bufferSize: nat)
    requires StartsAtMatch(w) && bufferSize > 0
    ensures SearchEnds(w, fileSize, bufferSize) && Disjoint(Kept(w, fileSize, bufferSize))
  {
    var turns := ScanEnds(w, fileSize, bufferSize, AT_START);
    var found := ScanFrom(w, fileSize, bufferSize, AT_START).chunks;
    var kept := Kept(w, fileSize, bufferSize);
    FoundIsOrderly(w, fileSize, bufferSize);
    InSequenceIsDisjoint(found);
    DisjointIffNoByteTwice(found);
    DisjointIffNoByteTwice(kept);
    forall b ensures Covering(kept, b) <= 1 {
      SortCovering(BySize(), found, b);
      OutermostCovering(SortBy(BySize(), found), found, b);
    }
  }}
