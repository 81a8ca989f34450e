/** Chunks of a file, stable sorting, and the removal of chunks inside other chunks. */
module Chunks {
  /** The bytes from `start` up to but not including `end`. */
  datatype RawChunk = Chunk(id: nat, start: int, end: int)

  /** The constructor refuses anything else. */
  predicate Constructible(start: int, end: int) {
    0 <= start < end
  }

  type Chunk = c: RawChunk | Constructible(c.start, c.end) witness Chunk(0, 0, 1)

  function Size(c: Chunk): int { c.end - c.start }

  predicate Contains(c: Chunk, d: Chunk) {
    (c.start < d.start && c.end >= d.end) || (c.start <= d.start && c.end > d.end)
  }

  predicate ContainsOffset(c: Chunk, offset: int) {
    c.start <= offset < c.end
  }

  /** Strictly inside: the same or fewer bytes on either side, and not the same range. */
  lemma ContainsIsStrictInclusion(c: Chunk, d: Chunk)
    ensures Contains(c, d) <==>
            (forall b :: ContainsOffset(d, b) ==> ContainsOffset(c, b)) && (c.start, c.end) != (d.start, d.end)
  {
    assert ContainsOffset(d, d.start) && ContainsOffset(d, d.end - 1);
  }

  // ---- stable sorting ----

  function Insert(key: Chunk -> int, c: Chunk, s: seq<Chunk>): seq<Chunk> {
    if s == [] || key(c) <= key(s[0]) then [c] + s else [s[0]] + Insert(key, c, s[1..])
  }

  function SortBy(key: Chunk -> int, s: seq<Chunk>): seq<Chunk> {
    if s == [] then [] else Insert(key, s[0], SortBy(key, s[1..]))
  }

  ghost predicate Ordered(key: Chunk -> int, s: seq<Chunk>) {
    |s| <= 1 || (key(s[0]) <= key(s[1]) && Ordered(key, s[1..]))
  }

  lemma {:induction false} InsertPermutes(key: Chunk -> int, c: Chunk, s: seq<Chunk>)
    ensures multiset(Insert(key, c, s)) == multiset(s) + multiset{c}
  {
    if s != [] && key(c) > key(s[0]) {
      InsertPermutes(key, c, s[1..]);
      assert s == [s[0]] + s[1..];
    }
  }

  lemma {:induction false} SortPermutes(key: Chunk -> int, s: seq<Chunk>)
    ensures multiset(SortBy(key, s)) == multiset(s)
  {
    if s != [] {
      SortPermutes(key, s[1..]);
      InsertPermutes(key, s[0], SortBy(key, s[1..]));
      assert s == [s[0]] + s[1..];
    }
  }

  lemma {:induction false} InsertOrders(key: Chunk -> int, c: Chunk, s: seq<Chunk>)
    requires Ordered(key, s)
    ensures Ordered(key, Insert(key, c, s))
  {
    if s != [] && key(c) > key(s[0]) {
      InsertOrders(key, c, s[1..]);
    }
  }

  lemma {:induction false} SortOrders(key: Chunk -> int, s: seq<Chunk>)
    ensures Ordered(key, SortBy(key, s))
  {
    if s != [] {
      SortOrders(key, s[1..]);
      InsertOrders(key, s[0], SortBy(key, s[1..]));
    }
  }

  lemma {:induction false} OrderedAt(key: Chunk -> int, s: seq<Chunk>, i: nat, j: nat)
    requires Ordered(key, s) && i <= j < |s|
    ensures key(s[i]) <= key(s[j])
  {
    if i < j {
      if i == 0 {
        OrderedAt(key, s[1..], 0, j - 1);
      } else {
        OrderedAt(key, s[1..], i - 1, j - 1);
      }
    }
  }

  lemma SameElements(s: seq<Chunk>, t: seq<Chunk>, c: Chunk)
    requires multiset(s) == multiset(t)
    ensures c in s <==> c in t
  {
    assert c in s <==> c in multiset(s);
    assert c in t <==> c in multiset(t);
  }

  // ---- chunks inside other chunks ----

  function BySize(): Chunk -> int { (c: Chunk) => 0 - Size(c) }

  predicate Inner(c: Chunk, chunks: seq<Chunk>) {
    exists k :: 0 <= k < |chunks| && Contains(chunks[k], c)
  }

  /** The chunks of a list that lie in no chunk of `all`. */
  function Outermost(s: seq<Chunk>, all: seq<Chunk>): seq<Chunk> {
    if s == [] then []
    else Outermost(s[..|s| - 1], all) + if Inner(s[|s| - 1], all) then [] else [s[|s| - 1]]
  }

  lemma {:induction false} OutermostCount(s: seq<Chunk>, all: seq<Chunk>, c: Chunk)
    ensures multiset(Outermost(s, all))[c] == if Inner(c, all) then 0 else multiset(s)[c]
  {
    hide Inner;
    if s != [] {
      var front := s[..|s| - 1];
      OutermostCount(front, all, c);
      assert s == front + [s[|s| - 1]];
    }
  }

  lemma {:induction false} OutermostMember(s: seq<Chunk>, all: seq<Chunk>, c: Chunk)
    ensures c in Outermost(s, all) <==> c in s && !Inner(c, all)
  {
    if s != [] {
      OutermostMember(s[..|s| - 1], all, c);
      assert s == s[..|s| - 1] + [s[|s| - 1]];
    }
  }

  /** The chunk, or one that contains it, is in the list. */
  ghost predicate Represented(c: Chunk, outer: seq<Chunk>) {
    c in outer || Inner(c, outer)
  }

  lemma RepresentedStays(c: Chunk, outer: seq<Chunk>, more: seq<Chunk>)
    requires Represented(c, outer)
    ensures Represented(c, outer + more)
  {
    if c !in outer {
      var k :| 0 <= k < |outer| && Contains(outer[k], c);
      assert (outer + more)[k] == outer[k];
    }
  }

  /** What contains a represented chunk's contents is represented too: containment is transitive. */
  lemma InnerOfRepresented(c: Chunk, d: Chunk, outer: seq<Chunk>)
    requires Represented(d, outer) && Contains(d, c)
    ensures Inner(c, outer)
  {
    if d in outer {
      var k :| 0 <= k < |outer| && outer[k] == d;
      assert Contains(outer[k], c);
    } else {
      var k :| 0 <= k < |outer| && Contains(outer[k], d);
      assert Contains(outer[k], c);
    }
  }

  /** In a list sorted by size, a chunk is inside another one iff it is inside one kept so far. */
  lemma InnerMeansInnerOfKept(chunks: seq<Chunk>, sorted: seq<Chunk>, k: nat)
    requires sorted == SortBy(BySize(), chunks) && k < |sorted|
    requires forall j :: 0 <= j < k ==> Represented(sorted[j], Outermost(sorted[..k], chunks))
    ensures Inner(sorted[k], Outermost(sorted[..k], chunks)) <==> Inner(sorted[k], chunks)
  {
    var outer, c := Outermost(sorted[..k], chunks), sorted[k];
    SortPermutes(BySize(), chunks);
    if Inner(c, chunks) {
      var d := Container(c, chunks);
      SameElements(chunks, sorted, d);
      var j :| 0 <= j < |sorted| && sorted[j] == d;
      SortOrders(BySize(), chunks);
      if j >= k {
        OrderedAt(BySize(), sorted, k, j);
      }
      InnerOfRepresented(c, d, outer);
    }
    if Inner(c, outer) {
      var d := Container(c, outer);
      OutermostMember(sorted[..k], chunks, d);
      SameElements(chunks, sorted, d);
    }
  }

  lemma Container(c: Chunk, chunks: seq<Chunk>) returns (d: Chunk)
    requires Inner(c, chunks)
    ensures d in chunks && Contains(d, c)
  {
    var k :| 0 <= k < |chunks| && Contains(chunks[k], c);
    d := chunks[k];
  }

  lemma OutermostStep(s: seq<Chunk>, k: nat, all: seq<Chunk>)
    requires k < |s|
    ensures Outermost(s[..k + 1], all) == Outermost(s[..k], all) + if Inner(s[k], all) then [] else [s[k]]
  {
    assert s[..k + 1][..k] == s[..k];
  }

  lemma {:induction false} PrefixIsRepresented(chunks: seq<Chunk>, sorted: seq<Chunk>, k: nat)
    requires sorted == SortBy(BySize(), chunks) && k <= |sorted|
    ensures forall j :: 0 <= j < k ==> Represented(sorted[j], Outermost(sorted[..k], chunks))
  {
    if k > 0 {
      PrefixIsRepresented(chunks, sorted, k - 1);
      InnerMeansInnerOfKept(chunks, sorted, k - 1);
      OutermostStep(sorted, k - 1, chunks);
      forall j | 0 <= j < k
        ensures Represented(sorted[j], Outermost(sorted[..k], chunks))
      {
        RepresentedNext(chunks, sorted, k - 1, j);
      }
    }
  }

  lemma RepresentedNext(chunks: seq<Chunk>, sorted: seq<Chunk>, k: nat, j: nat)
    requires j <= k < |sorted|
    requires j < k ==> Represented(sorted[j], Outermost(sorted[..k], chunks))
    requires Inner(sorted[k], Outermost(sorted[..k], chunks)) <==> Inner(sorted[k], chunks)
    ensures Represented(sorted[j], Outermost(sorted[..k + 1], chunks))
  {
    OutermostStep(sorted, k, chunks);
    if j < k || Inner(sorted[k], chunks) {
      RepresentedStays(sorted[j], Outermost(sorted[..k], chunks), if Inner(sorted[k], chunks) then [] else [sorted[k]]);
    }
  }

  /** Greedy over the chunks from the biggest down, comparing with the ones kept so far only. */
  method RemoveInnerChunks(chunks: seq<Chunk>) returns (outer: seq<Chunk>)
    ensures outer == Outermost(SortBy(BySize(), chunks), chunks)
  {
    if chunks == [] {
      return [];
    }
    var sorted := SortBy(BySize(), chunks);
    SortKeepsLength(BySize(), chunks);
    BiggestIsOutermost(chunks);
    outer := [sorted[0]];
    for k := 1 to |sorted|
      invariant outer == Outermost(sorted[..k], chunks)
    {
      PrefixIsRepresented(chunks, sorted, k);
      InnerMeansInnerOfKept(chunks, sorted, k);
      OutermostStep(sorted, k, chunks);
      if !Inner(sorted[k], outer) {
        outer := outer + [sorted[k]];
      }
    }
    assert sorted[..|sorted|] == sorted;
  }

  lemma SortKeepsLength(key: Chunk -> int, s: seq<Chunk>)
    ensures |SortBy(key, s)| == |s|
  {
    SortPermutes(key, s);
    assert |SortBy(key, s)| == |multiset(SortBy(key, s))| && |s| == |multiset(s)|;
  }

  lemma BiggestIsOutermost(chunks: seq<Chunk>)
    requires chunks != [] && SortBy(BySize(), chunks) != []
    ensures Outermost(SortBy(BySize(), chunks)[..1], chunks) == [SortBy(BySize(), chunks)[0]]
  {
    var sorted := SortBy(BySize(), chunks);
    InnerMeansInnerOfKept(chunks, sorted, 0);
    assert Outermost(sorted[..1][..0], chunks) == [];
  }

  /** Kept are exactly the chunks that are not strictly inside another one, as often as they were given. */
  lemma KeptExactly(chunks: seq<Chunk>, c: Chunk)
    ensures multiset(Outermost(SortBy(BySize(), chunks), chunks))[c] ==
            if Inner(c, chunks) then 0 else multiset(chunks)[c]
  {
    SortPermutes(BySize(), chunks);
    OutermostCount(SortBy(BySize(), chunks), chunks, c);
  }

  /** No byte is lost: a byte of an input chunk is a byte of a kept chunk. */
  lemma CoverageKept(chunks: seq<Chunk>, c: Chunk, b: int) returns (d: Chunk)
    requires c in chunks && ContainsOffset(c, b)
    ensures d in Outermost(SortBy(BySize(), chunks), chunks) && ContainsOffset(d, b)
  {
    var sorted := SortBy(BySize(), chunks);
    SortPermutes(BySize(), chunks);
    SameElements(chunks, sorted, c);
    PrefixIsRepresented(chunks, sorted, |sorted|);
    assert sorted[..|sorted|] == sorted;
    var j :| 0 <= j < |sorted| && sorted[j] == c;
    if c in Outermost(sorted, chunks) {
      d := c;
    } else {
      d := Container(c, Outermost(sorted, chunks));
    }
  }
}
