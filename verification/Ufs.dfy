/**
 File contents in a UFS file system: twelve direct blocks, then trees of pointer blocks of height one,
 two and three.  A zero pointer stands for a block of zeros.
 */
module Ufs {
  import opened Bytes
  import opened Files

  const DIRECT_BLOCKS := 12
  const INDIRECT_BLOCKS := 3

  /** An image with the block, fragment and pointer sizes of its super block. */
  datatype Disk = Disk(data: seq<byte>, blockSize: nat, fragSize: nat, pointerSize: nat)

  datatype Inode = Inode(size: nat, direct: seq<nat>, indirect: seq<nat>)

  predicate InodeOk(n: Inode) {
    |n.direct| == DIRECT_BLOCKS && |n.indirect| == INDIRECT_BLOCKS
  }

  predicate DiskOk(d: Disk) {
    d.pointerSize > 0
  }

  /** The number of pointers in a block. */
  function Fanout(d: Disk): nat
    requires DiskOk(d)
  {
    d.blockSize / d.pointerSize
  }

  // ---- what the reader computes ----

  function Unpack(b: seq<byte>, n: nat, width: nat): (r: seq<nat>)
    requires n * width <= |b|
    ensures |r| == n
  {
    if n == 0 then []
    else
      NextIsInside(n, width);
      [LittleEndian(b[..width])] + Unpack(b[width..], n - 1, width)
  }

  lemma NextIsInside(n: nat, width: nat)
    requires n > 0
    ensures n * width == width + (n - 1) * width && width <= n * width
  {
    assert n * width == width + (n - 1) * width;
    Multiples(n, width);
  }

  /** Up to `n` bytes of a fragment and what follows it. */
  function ReadAt(d: Disk, fragment: nat, n: nat): (r: Result<seq<byte>>)
    ensures r.Ok? ==> |r.value| <= n
  {
    if fragment * d.fragSize > |d.data| then Err(SeekError) else Ok(Slice(d.data, fragment * d.fragSize, n))
  }

  function ReadPointers(d: Disk, fragment: nat): (r: Result<seq<nat>>)
    requires DiskOk(d)
    ensures r.Ok? ==> |r.value| == Fanout(d)
  {
    match ReadAt(d, fragment, d.blockSize)
    case Err(e) => Err(e)
    case Ok(b) => if |b| != Fanout(d) * d.pointerSize then Err(StructError) else Ok(Unpack(b, Fanout(d), d.pointerSize))
  }

  // ---- which numbers the pointers are ----

  lemma PlaceOf(k: nat, n: nat, width: nat)
    requires k < n
    ensures (k + 1) * width == k * width + width <= n * width
  {
    if k + 1 < n {
      PlaceOf(k, n - 1, width);
      NextIsInside(n, width);
    }
  }

  /** Each pointer is the number in its own bytes, lowest first, whatever their number. */
  lemma {:induction false} UnpackIs(b: seq<byte>, n: nat, width: nat, k: nat)
    requires n * width <= |b| && k < n
    ensures (k + 1) * width <= |b| && 0 <= k * width <= (k + 1) * width
    ensures Unpack(b, n, width)[k] == LittleEndian(b[k * width..(k + 1) * width])
    decreases n
  {
    PlaceOf(k, n, width);
    NextIsInside(n, width);
    if k > 0 {
      UnpackIs(b[width..], n - 1, width, k - 1);
      PlaceOf(k - 1, n, width);
      ShiftedSlice(b, width, (k - 1) * width, k * width);
    }
  }

  lemma ShiftedSlice(b: seq<byte>, n: nat, i: nat, j: nat)
    requires i <= j && n + j <= |b|
    ensures b[n..][i..j] == b[i + n..j + n]
  {
  }

  /** A pointer block that can be read is as long as its pointers, which stand in it one behind the other. */
  lemma PointersAre(d: Disk, fragment: nat, k: nat)
    requires DiskOk(d) && ReadPointers(d, fragment).Ok? && k < d.blockSize / d.pointerSize
    ensures var at := fragment * d.fragSize + k * d.pointerSize;
            && 0 <= at <= at + d.pointerSize <= |d.data|
            && |ReadPointers(d, fragment).value| == d.blockSize / d.pointerSize
            && ReadPointers(d, fragment).value[k] == LittleEndian(d.data[at..at + d.pointerSize])
  {
    hide LittleEndian, Unpack;
    var b, w := ReadAt(d, fragment, d.blockSize).value, d.pointerSize;
    UnpackIs(b, Fanout(d), w, k);
    PlaceOf(k, Fanout(d), w);
    SubSlice(d.data, fragment * d.fragSize, fragment * d.fragSize + |b|, k * w, (k + 1) * w);
  }

  /** The `width` bytes of a number, lowest first. */
  function Packed(v: nat, width: nat): (r: seq<byte>)
    ensures |r| == width
  {
    if width == 0 then [] else [v % 256] + Packed(v / 256, width - 1)
  }

  /** What a file system writes into a pointer block. */
  function PointerBlock(pointers: seq<nat>, width: nat): seq<byte> {
    if pointers == [] then [] else Packed(pointers[0], width) + PointerBlock(pointers[1..], width)
  }

  /** The numbers that fit into `width` bytes. */
  function Limit(width: nat): nat {
    if width == 0 then 1 else 256 * Limit(width - 1)
  }

  lemma UsualLimits()
    ensures Limit(4) == 0x1_0000_0000 && Limit(8) == 0x1_0000_0000_0000_0000
  {
    assert Limit(2) == 0x1_0000;
    assert Limit(6) == 0x1_0000_0000_0000;
  }

  lemma {:induction false} PackedIsRead(v: nat, width: nat)
    requires v < Limit(width)
    ensures LittleEndian(Packed(v, width)) == v
    decreases width
  {
    if width > 0 {
      PackedIsRead(v / 256, width - 1);
      assert Packed(v, width)[1..] == Packed(v / 256, width - 1);
    }
  }

  lemma {:induction false} BlockIsRead(pointers: seq<nat>, width: nat)
    requires forall k :: 0 <= k < |pointers| ==> pointers[k] < Limit(width)
    ensures |PointerBlock(pointers, width)| == |pointers| * width
    ensures Unpack(PointerBlock(pointers, width), |pointers|, width) == pointers
    decreases |pointers|
  {
    if pointers != [] {
      hide LittleEndian, Packed, Limit;
      var first, rest := Packed(pointers[0], width), PointerBlock(pointers[1..], width);
      NextIsInside(|pointers|, width);
      PackedIsRead(pointers[0], width);
      BlockIsRead(pointers[1..], width);
      assert (first + rest)[..width] == first && (first + rest)[width..] == rest;
      assert pointers == [pointers[0]] + pointers[1..];
    }
  }

  /** Whatever pointers a file system writes into a whole block are read from it. */
  lemma PointersRoundTrip(d: Disk, fragment: nat, pointers: seq<nat>)
    requires DiskOk(d) && |pointers| * d.pointerSize == d.blockSize
    requires forall k :: 0 <= k < |pointers| ==> pointers[k] < Limit(d.pointerSize)
    requires fragment * d.fragSize + d.blockSize <= |d.data|
    requires d.data[fragment * d.fragSize..fragment * d.fragSize + d.blockSize] == PointerBlock(pointers, d.pointerSize)
    ensures ReadPointers(d, fragment) == Ok(pointers)
  {
    hide Unpack, PointerBlock, Limit;
    BlockIsRead(pointers, d.pointerSize);
    DivisionIs(d.blockSize, d.pointerSize, |pointers|, 0);
  }

  /** The pointers of all blocks of one level; zero pointers are passed over. */
  function NextIndexes(d: Disk, indexes: seq<nat>): Result<seq<nat>>
    requires DiskOk(d)
  {
    if indexes == [] then Ok([])
    else if indexes[0] == 0 then NextIndexes(d, indexes[1..])
    else
      match ReadPointers(d, indexes[0])
      case Err(e) => Err(e)
      case Ok(pointers) =>
        match NextIndexes(d, indexes[1..])
        case Err(e) => Err(e)
        case Ok(rest) => Ok(pointers + rest)
  }

  /** Level by level down to the data blocks. */
  function Expand(d: Disk, indexes: seq<nat>, level: nat): Result<seq<nat>>
    requires DiskOk(d)
    decreases level
  {
    if level == 0 then Ok(indexes)
    else
      match NextIndexes(d, indexes)
      case Err(e) => Err(e)
      case Ok(next) => Expand(d, next, level - 1)
  }

  /** What was yielded, what is missing to the size of the file, and the exception that ended the reading. */
  datatype Output = Output(bytes: seq<byte>, remaining: nat, error: Option<Error>)

  function Before(bytes: seq<byte>, rest: Output): Output {
    rest.(bytes := bytes + rest.bytes)
  }

  function ReadData(d: Disk, fragment: nat, n: nat): (r: Result<seq<byte>>)
    ensures r.Ok? ==> |r.value| <= n
  {
    if fragment == 0 then Ok(Zeros(n)) else ReadAt(d, fragment, n)
  }

  /** Whole blocks are read, and cut to what remains; a short block counts for as much as it has. */
  function Direct(d: Disk, fragments: seq<nat>, remaining: nat): Output
    decreases |fragments|
  {
    if fragments == [] then Output([], remaining, None)
    else
      match ReadData(d, fragments[0], d.blockSize)
      case Err(e) => Output([], remaining, Some(e))
      case Ok(chunk) =>
        var n := Min(|chunk|, remaining);
        if n == remaining then Output(chunk[..n], 0, None)
        else Before(chunk[..n], Direct(d, fragments[1..], remaining - n))
  }

  /** No more than what remains is read of a block. */
  function Leaves(d: Disk, fragments: seq<nat>, remaining: nat): Output
    decreases |fragments|
  {
    if fragments == [] || remaining == 0 then Output([], remaining, None)
    else
      var n := Min(d.blockSize, remaining);
      match ReadData(d, fragments[0], n)
      case Err(e) => Output([], remaining, Some(e))
      case Ok(chunk) => Before(chunk, Leaves(d, fragments[1..], remaining - n))
  }

  /** The trees in turn, each a level higher than the one before, up to the first zero pointer. */
  function Indirect(d: Disk, roots: seq<nat>, level: nat, remaining: nat): Output
    requires DiskOk(d)
    decreases |roots|
  {
    if roots == [] || roots[0] == 0 || remaining == 0 then Output([], remaining, None)
    else
      match Expand(d, [roots[0]], level)
      case Err(e) => Output([], remaining, Some(e))
      case Ok(indexes) =>
        var out := Leaves(d, indexes, remaining);
        if out.error.Some? then out else Before(out.bytes, Indirect(d, roots[1..], level + 1, out.remaining))
  }

  function FileContent(d: Disk, n: Inode): Output
    requires DiskOk(d)
  {
    var out := Direct(d, n.direct, n.size);
    if out.error.Some? then out else Before(out.bytes, Indirect(d, n.indirect, 1, out.remaining))
  }

  // ---- the tree of pointers ----

  function Power(b: nat, e: nat): nat {
    if e == 0 then 1 else b * Power(b, e - 1)
  }

  /** The pointers below a pointer; none below a zero, or below a block that cannot be read. */
  function Children(d: Disk, fragment: nat): (r: Option<seq<nat>>)
    requires DiskOk(d)
    ensures r.Some? ==> |r.value| == Fanout(d)
  {
    if fragment == 0 then None
    else match ReadPointers(d, fragment) case Ok(p) => Some(p) case Err(_) => None
  }

  /** A data block of a tree, by its pointer; `None` for one that is in a hole, below a zero above the leaves. */
  type Leaf = Option<nat>

  /** The data block that the digits of `j` in base `Fanout` lead to. */
  function LeafAt(d: Disk, root: nat, level: nat, j: nat): Leaf
    requires DiskOk(d) && j < Power(Fanout(d), level)
    decreases level
  {
    if level == 0 then Some(root)
    else
      var unit := Power(Fanout(d), level - 1);
      DigitInRange(j, Fanout(d), unit);
      match Children(d, root)
      case None => None
      case Some(pointers) => LeafAt(d, pointers[Quotient(j, unit)], level - 1, Remainder(j, unit))
  }

  function Quotient(n: nat, d: nat): nat
    requires d > 0
  {
    n / d
  }

  function Remainder(n: nat, d: nat): nat
    requires d > 0
  {
    n % d
  }

  lemma DigitInRange(j: nat, b: nat, unit: nat)
    requires j < b * unit
    ensures unit > 0 && Quotient(j, unit) < b && Remainder(j, unit) < unit
    ensures Quotient(j, unit) * unit + Remainder(j, unit) == j
  {
    if unit > 0 {
      var q := j / unit;
      assert j == q * unit + j % unit;
      Multiples(q - b, unit);
      assert (q - b) * unit == q * unit - b * unit;
    }
  }

  function Known(fragments: seq<nat>): (r: seq<Leaf>)
    ensures |r| == |fragments| && forall k :: 0 <= k < |r| ==> r[k] == Some(fragments[k])
  {
    seq(|fragments|, k requires 0 <= k < |fragments| => Some(fragments[k]))
  }

  function Missing(n: nat): (r: seq<Leaf>)
    ensures |r| == n && forall k :: 0 <= k < n ==> r[k] == None
  {
    seq(n, _ => None)
  }

  /** All data blocks below some pointers, depth first. */
  function DepthFirst(d: Disk, indexes: seq<nat>, level: nat): seq<Leaf>
    requires DiskOk(d)
    decreases level, |indexes| + 1
  {
    if level == 0 then Known(indexes)
    else if indexes == [] then []
    else Below(d, indexes[0], level) + DepthFirst(d, indexes[1..], level)
  }

  /** The data blocks below one pointer. */
  function Below(d: Disk, root: nat, level: nat): seq<Leaf>
    requires DiskOk(d) && level > 0
    decreases level, 0
  {
    match Children(d, root)
    case None => Missing(Power(Fanout(d), level))
    case Some(pointers) => DepthFirst(d, pointers, level - 1)
  }

  /** What a file system puts in the place of the blocks: a hole is a zero pointer. */
  function Filled(leaves: seq<Leaf>): (r: seq<nat>)
    ensures |r| == |leaves|
    ensures forall k :: 0 <= k < |r| ==> r[k] == match leaves[k] case Some(p) => p case None => 0
  {
    seq(|leaves|, k requires 0 <= k < |leaves| => match leaves[k] case Some(p) => p case None => 0)
  }

  /** The blocks that are not in a hole. */
  function Present(leaves: seq<Leaf>): seq<nat> {
    if leaves == [] then []
    else (match leaves[0] case Some(p) => [p] case None => []) + Present(leaves[1..])
  }

  /** The number of blocks before the first hole. */
  function Lead(leaves: seq<Leaf>): (n: nat)
    ensures n <= |leaves| && forall k :: 0 <= k < n ==> leaves[k].Some?
    ensures n < |leaves| ==> leaves[n].None?
  {
    if leaves == [] || leaves[0].None? then 0 else 1 + Lead(leaves[1..])
  }

  /** No pointer above the data blocks is zero. */
  predicate NoHoles(d: Disk, indexes: seq<nat>, level: nat)
    requires DiskOk(d)
    decreases level
  {
    level == 0
    || (0 !in indexes
        && match NextIndexes(d, indexes) case Err(_) => false case Ok(next) => NoHoles(d, next, level - 1))
  }

  // ---- level by level leaves out exactly the blocks that are in holes ----

  lemma {:induction false} PresentConcat(a: seq<Leaf>, b: seq<Leaf>)
    ensures Present(a + b) == Present(a) + Present(b)
    decreases |a|
  {
    if a == [] {
      ConcatAssociates(b, [], []);
      ConcatAssociates(Present(b), [], []);
    } else {
      assert (a + b)[1..] == a[1..] + b;
      PresentConcat(a[1..], b);
      var first: seq<nat> := match a[0] case Some(p) => [p] case None => [];
      ConcatAssociates(first, Present(a[1..]), Present(b));
    }
  }

  lemma {:induction false} PresentOfKnown(fragments: seq<nat>)
    ensures Present(Known(fragments)) == fragments
    decreases |fragments|
  {
    if fragments != [] {
      assert Known(fragments)[1..] == Known(fragments[1..]);
      PresentOfKnown(fragments[1..]);
    }
  }

  lemma {:induction false} PresentOfMissing(n: nat)
    ensures Present(Missing(n)) == []
    decreases n
  {
    if n > 0 {
      assert Missing(n)[1..] == Missing(n - 1);
      PresentOfMissing(n - 1);
    }
  }

  /** Up to the first hole nothing is left out; behind it the blocks move forward. */
  lemma {:induction false} PresentLead(leaves: seq<Leaf>)
    ensures Lead(leaves) <= |Present(leaves)| <= |leaves|
    ensures Present(leaves)[..Lead(leaves)] == Filled(leaves)[..Lead(leaves)]
    ensures |Present(leaves)| == |leaves| <==> Lead(leaves) == |leaves|
    decreases |leaves|
  {
    if leaves != [] {
      PresentLead(leaves[1..]);
      if leaves[0].Some? {
        var n, rest := Lead(leaves[1..]), Present(leaves[1..]);
        assert Present(leaves)[..1 + n] == [leaves[0].value] + rest[..n];
        assert Filled(leaves)[..1 + n] == [leaves[0].value] + Filled(leaves[1..])[..n];
      }
    }
  }

  lemma {:induction false} DepthFirstConcat(d: Disk, a: seq<nat>, b: seq<nat>, level: nat)
    requires DiskOk(d)
    ensures DepthFirst(d, a + b, level) == DepthFirst(d, a, level) + DepthFirst(d, b, level)
    decreases |a|
  {
    if level == 0 {
      assert Known(a + b) == Known(a) + Known(b);
    } else if a == [] {
      ConcatAssociates(b, [], []);
      ConcatAssociates(DepthFirst(d, b, level), [], []);
    } else {
      hide Below, Known;
      assert (a + b)[1..] == a[1..] + b;
      DepthFirstConcat(d, a[1..], b, level);
      DepthFirstStep(d, a, level);
      DepthFirstStep(d, a + b, level);
      ConcatAssociates(Below(d, a[0], level), DepthFirst(d, a[1..], level), DepthFirst(d, b, level));
    }
  }

  lemma DepthFirstStep(d: Disk, indexes: seq<nat>, level: nat)
    requires DiskOk(d) && level > 0 && indexes != []
    ensures DepthFirst(d, indexes, level) == Below(d, indexes[0], level) + DepthFirst(d, indexes[1..], level)
  {
  }

  lemma NothingBelow(d: Disk, level: nat)
    requires DiskOk(d)
    ensures NextIndexes(d, []) == Ok([]) && DepthFirst(d, [], level) == []
  {
  }

  /** The blocks below a pointer are those below its children, if it has any. */
  lemma PresentBelow(d: Disk, root: nat, level: nat)
    requires DiskOk(d) && level > 0
    ensures Present(Below(d, root, level)) ==
            match Children(d, root) case None => [] case Some(pointers) => Present(DepthFirst(d, pointers, level - 1))
  {
    hide DepthFirst, Children, Present;
    PresentOfMissing(Power(Fanout(d), level));
  }

  lemma NextStep(d: Disk, indexes: seq<nat>)
    requires DiskOk(d) && indexes != [] && NextIndexes(d, indexes).Ok?
    ensures NextIndexes(d, indexes[1..]).Ok?
    ensures NextIndexes(d, indexes).value ==
            (match Children(d, indexes[0]) case None => [] case Some(p) => p) + NextIndexes(d, indexes[1..]).value
  {
    hide ReadPointers;
    ConcatAssociates(NextIndexes(d, indexes[1..]).value, [], []);
  }

  lemma {:induction false} NextIsBelow(d: Disk, indexes: seq<nat>, level: nat)
    requires DiskOk(d) && level > 0 && NextIndexes(d, indexes).Ok?
    ensures Present(DepthFirst(d, NextIndexes(d, indexes).value, level - 1)) == Present(DepthFirst(d, indexes, level))
    decreases |indexes|, 1
  {
    hide *;
    if indexes == [] {
      NothingBelow(d, level);
      NothingBelow(d, level - 1);
    } else {
      NextIsBelowMore(d, indexes, level);
    }
  }

  lemma {:induction false} NextIsBelowMore(d: Disk, indexes: seq<nat>, level: nat)
    requires DiskOk(d) && level > 0 && indexes != [] && NextIndexes(d, indexes).Ok?
    ensures Present(DepthFirst(d, NextIndexes(d, indexes).value, level - 1)) == Present(DepthFirst(d, indexes, level))
    decreases |indexes|, 0
  {
    hide *;
    NextStep(d, indexes);
    var rest := NextIndexes(d, indexes[1..]).value;
    var first: seq<nat> := match Children(d, indexes[0]) case None => [] case Some(p) => p;
    NextIsBelow(d, indexes[1..], level);
    DepthFirstStep(d, indexes, level);
    DepthFirstConcat(d, first, rest, level - 1);
    PresentConcat(DepthFirst(d, first, level - 1), DepthFirst(d, rest, level - 1));
    PresentConcat(Below(d, indexes[0], level), DepthFirst(d, indexes[1..], level));
    PresentBelow(d, indexes[0], level);
    NothingBelow(d, level - 1);
    NothingPresent();
  }

  lemma NothingPresent()
    ensures Present([]) == []
  {
  }

  /** When it succeeds, the list made level by level is the blocks of the tree less those that are in holes. */
  lemma {:induction false} ExpandIsPresent(d: Disk, indexes: seq<nat>, level: nat)
    requires DiskOk(d) && Expand(d, indexes, level).Ok?
    ensures Expand(d, indexes, level).value == Present(DepthFirst(d, indexes, level))
    decreases level
  {
    if level == 0 {
      PresentOfKnown(indexes);
    } else {
      hide NextIndexes, DepthFirst, Present;
      ExpandIsPresent(d, NextIndexes(d, indexes).value, level - 1);
      NextIsBelow(d, indexes, level);
    }
  }

  /** So it agrees with the tree up to the first hole. */
  lemma ExpandAgrees(d: Disk, indexes: seq<nat>, level: nat, k: nat)
    requires DiskOk(d) && Expand(d, indexes, level).Ok? && k <= Lead(DepthFirst(d, indexes, level))
    ensures var list := Expand(d, indexes, level).value;
            k <= |list| && list[..k] == Filled(DepthFirst(d, indexes, level))[..k]
  {
    hide Expand, DepthFirst, Lead, Present, Filled;
    var leaves := DepthFirst(d, indexes, level);
    ExpandIsPresent(d, indexes, level);
    PresentLead(leaves);
    assert Present(leaves)[..Lead(leaves)][..k] == Present(leaves)[..k];
    assert Filled(leaves)[..Lead(leaves)][..k] == Filled(leaves)[..k];
  }

  function NonZero(indexes: seq<nat>): (n: nat)
    ensures n <= |indexes| && (n == |indexes| <==> 0 !in indexes)
  {
    if indexes == [] then 0 else (if indexes[0] == 0 then 0 else 1) + NonZero(indexes[1..])
  }

  lemma {:induction false} NextLength(d: Disk, indexes: seq<nat>)
    requires DiskOk(d) && NextIndexes(d, indexes).Ok?
    ensures |NextIndexes(d, indexes).value| == NonZero(indexes) * Fanout(d)
    decreases |indexes|
  {
    hide ReadPointers, Fanout;
    if indexes != [] {
      NextLength(d, indexes[1..]);
      OneMore(NonZero(indexes[1..]), Fanout(d));
    }
  }

  lemma OneMore(n: nat, f: nat)
    ensures (n + 1) * f == n * f + f && (1 + n) * f == f + n * f
  {
  }

  lemma LevelProduct(k: nat, n: nat, f: nat, unit: nat)
    requires k <= n
    ensures (k * f) * unit == k * (f * unit) <= n * (f * unit)
    ensures k < n && f > 0 && unit > 0 ==> (k * f) * unit < n * (f * unit)
  {
    Reassociate(k, f, unit);
    MoreTimes(k, n, f * unit);
    if f > 0 && unit > 0 {
      Multiples(f, unit);
    }
  }

  lemma Reassociate(k: nat, f: nat, unit: nat)
    ensures (k * f) * unit == k * (f * unit)
  {
  }

  lemma MoreTimes(k: nat, n: nat, p: nat)
    requires k <= n
    ensures k * p <= n * p && (k < n && p > 0 ==> k * p < n * p)
  {
    SumTimes(k, n - k, p);
    if k < n {
      Multiples(n - k, p);
    }
  }

  lemma {:induction false} PowerPositive(b: nat, e: nat)
    requires b > 0
    ensures Power(b, e) > 0
  {
    if e > 0 {
      PowerPositive(b, e - 1);
      Multiples(b, Power(b, e - 1));
    }
  }

  /** A hole makes the expanded list too short: its blocks are left out, and not replaced by zeros. */
  lemma {:induction false} ExpandedLength(d: Disk, indexes: seq<nat>, level: nat)
    requires DiskOk(d) && Fanout(d) > 0 && Expand(d, indexes, level).Ok?
    ensures |Expand(d, indexes, level).value| <= |indexes| * Power(Fanout(d), level)
    ensures |Expand(d, indexes, level).value| == |indexes| * Power(Fanout(d), level) <==> NoHoles(d, indexes, level)
    decreases level, 1
  {
    if level > 0 {
      hide *;
      ExpandedLengthMore(d, indexes, level);
    }
  }

  lemma {:induction false} ExpandedLengthMore(d: Disk, indexes: seq<nat>, level: nat)
    requires DiskOk(d) && Fanout(d) > 0 && level > 0 && Expand(d, indexes, level).Ok?
    ensures |Expand(d, indexes, level).value| <= |indexes| * Power(Fanout(d), level)
    ensures |Expand(d, indexes, level).value| == |indexes| * Power(Fanout(d), level) <==> NoHoles(d, indexes, level)
    decreases level, 0
  {
    hide *;
    var f, unit := Fanout(d), Power(Fanout(d), level - 1);
    ExpandStep(d, indexes, level);
    NextLength(d, indexes);
    ExpandedLength(d, NextIndexes(d, indexes).value, level - 1);
    PowerPositive(f, level - 1);
    PowerStep(f, level);
    LevelProduct(NonZero(indexes), |indexes|, f, unit);
  }

  lemma PowerStep(b: nat, e: nat)
    requires e > 0
    ensures Power(b, e) == b * Power(b, e - 1)
  {
  }

  lemma ExpandStep(d: Disk, indexes: seq<nat>, level: nat)
    requires DiskOk(d) && level > 0 && Expand(d, indexes, level).Ok?
    ensures NextIndexes(d, indexes).Ok?
    ensures var next := NextIndexes(d, indexes).value;
            && Expand(d, indexes, level) == Expand(d, next, level - 1)
            && (NoHoles(d, indexes, level) <==> 0 !in indexes && NoHoles(d, next, level - 1))
  {
    hide NextIndexes;
  }

  lemma {:induction false} DepthFirstLength(d: Disk, indexes: seq<nat>, level: nat)
    requires DiskOk(d)
    ensures |DepthFirst(d, indexes, level)| == |indexes| * Power(Fanout(d), level)
    decreases level, |indexes|
  {
    if level > 0 && indexes != [] {
      hide Fanout, Children;
      if Children(d, indexes[0]).Some? {
        DepthFirstLength(d, Children(d, indexes[0]).value, level - 1);
      }
      DepthFirstLength(d, indexes[1..], level);
      OneMore(|indexes| - 1, Power(Fanout(d), level));
    }
  }

  lemma {:induction false} NoHolesExpands(d: Disk, indexes: seq<nat>, level: nat)
    requires DiskOk(d) && NoHoles(d, indexes, level)
    ensures Expand(d, indexes, level).Ok?
    decreases level
  {
    if level > 0 {
      hide NextIndexes;
      NoHolesExpands(d, NextIndexes(d, indexes).value, level - 1);
    }
  }

  /** The list made level by level is the list of the tree's leaves just when no inner pointer is zero. */
  lemma ExpandIffNoHoles(d: Disk, indexes: seq<nat>, level: nat)
    requires DiskOk(d) && Fanout(d) > 0
    ensures Expand(d, indexes, level) == Ok(Filled(DepthFirst(d, indexes, level))) <==> NoHoles(d, indexes, level)
  {
    hide DepthFirst, Filled, Lead, Present, Expand;
    if NoHoles(d, indexes, level) {
      NoHolesExpands(d, indexes, level);
    }
    if Expand(d, indexes, level).Ok? {
      var leaves := DepthFirst(d, indexes, level);
      ExpandIsPresent(d, indexes, level);
      ExpandedLength(d, indexes, level);
      DepthFirstLength(d, indexes, level);
      PresentLead(leaves);
      assert Present(leaves)[..|Present(leaves)|] == Present(leaves) && Filled(leaves)[..|leaves|] == Filled(leaves);
    }
  }

  // ---- the digits of a block's number lead to it ----

  lemma {:induction false} LeafOfForest(d: Disk, indexes: seq<nat>, level: nat, i: nat, j: nat)
    requires DiskOk(d) && i < |indexes| && j < Power(Fanout(d), level)
    ensures |DepthFirst(d, indexes, level)| == |indexes| * Power(Fanout(d), level)
    ensures i * Power(Fanout(d), level) + j < |DepthFirst(d, indexes, level)|
    ensures DepthFirst(d, indexes, level)[i * Power(Fanout(d), level) + j] == LeafAt(d, indexes[i], level, j)
    decreases level, 2, 0
  {
    if level == 0 {
      PowerZero(Fanout(d));
    } else {
      hide *;
      LeafOfLevel(d, indexes, level, i, j);
    }
  }

  lemma {:induction false} LeafOfLevel(d: Disk, indexes: seq<nat>, level: nat, i: nat, j: nat)
    requires DiskOk(d) && level > 0 && i < |indexes| && j < Power(Fanout(d), level)
    ensures |DepthFirst(d, indexes, level)| == |indexes| * Power(Fanout(d), level)
    ensures i * Power(Fanout(d), level) + j < |DepthFirst(d, indexes, level)|
    ensures DepthFirst(d, indexes, level)[i * Power(Fanout(d), level) + j] == LeafAt(d, indexes[i], level, j)
    decreases level, 1, i
  {
    hide *;
    var unit := Power(Fanout(d), level);
    DepthFirstLength(d, indexes, level);
    PlaceInside(|indexes|, unit, i, j);
    DepthFirstStep(d, indexes, level);
    BelowLength(d, indexes[0], level);
    if i == 0 {
      LeafOfTree(d, indexes[0], level, j);
    } else {
      LeafOfLevel(d, indexes[1..], level, i - 1, j);
      Behind(Below(d, indexes[0], level), DepthFirst(d, indexes[1..], level), unit, i, j);
    }
  }

  lemma Behind(a: seq<Leaf>, b: seq<Leaf>, unit: nat, i: nat, j: nat)
    requires |a| == unit && i > 0 && (i - 1) * unit + j < |b|
    ensures i * unit + j < |a + b| && (a + b)[i * unit + j] == b[(i - 1) * unit + j]
  {
    OneMore(i - 1, unit);
  }

  lemma PowerZero(b: nat)
    ensures Power(b, 0) == 1
  {
  }

  lemma PlaceInside(n: nat, unit: nat, i: nat, j: nat)
    requires i < n && j < unit
    ensures i * unit + j < n * unit
  {
    var m := n - i - 1;
    Distributes(i, m, unit);
    if m > 0 {
      Multiples(m, unit);
    }
  }

  lemma Distributes(i: nat, m: nat, unit: nat)
    ensures (i + m + 1) * unit == i * unit + m * unit + unit
  {
  }

  lemma BelowLength(d: Disk, root: nat, level: nat)
    requires DiskOk(d) && level > 0
    ensures |Below(d, root, level)| == Power(Fanout(d), level)
  {
    hide Fanout, Children;
    if Children(d, root).Some? {
      DepthFirstLength(d, Children(d, root).value, level - 1);
    }
  }

  lemma {:induction false} LeafOfTree(d: Disk, root: nat, level: nat, j: nat)
    requires DiskOk(d) && level > 0 && j < Power(Fanout(d), level)
    ensures |Below(d, root, level)| == Power(Fanout(d), level)
    ensures Below(d, root, level)[j] == LeafAt(d, root, level, j)
    decreases level, 0, 0
  {
    hide Fanout, Children, DepthFirst, LeafAt, Power, Quotient, Remainder;
    var unit := Power(Fanout(d), level - 1);
    BelowLength(d, root, level);
    LeafStep(d, root, level, j);
    if Children(d, root).Some? {
      DigitInRange(j, Fanout(d), unit);
      LeafOfForest(d, Children(d, root).value, level - 1, Quotient(j, unit), Remainder(j, unit));
    }
  }

  lemma LeafStep(d: Disk, root: nat, level: nat, j: nat)
    requires DiskOk(d) && level > 0 && j < Power(Fanout(d), level)
    ensures var unit := Power(Fanout(d), level - 1);
            && j < Fanout(d) * unit && unit > 0 && Quotient(j, unit) < Fanout(d) && Remainder(j, unit) < unit
            && LeafAt(d, root, level, j) ==
               match Children(d, root)
               case None => None
               case Some(pointers) => LeafAt(d, pointers[Quotient(j, unit)], level - 1, Remainder(j, unit))
  {
    hide Fanout, Children, Quotient, Remainder;
    DigitInRange(j, Fanout(d), Power(Fanout(d), level - 1));
  }

  lemma TreeLeaf(d: Disk, root: nat, level: nat, j: nat)
    requires DiskOk(d) && j < Power(Fanout(d), level)
    ensures |DepthFirst(d, [root], level)| == Power(Fanout(d), level)
    ensures DepthFirst(d, [root], level)[j] == LeafAt(d, root, level, j)
  {
    hide *;
    LeafOfForest(d, [root], level, 0, j);
  }

  /** Block `j` of the reader's list is where the digits of `j` lead, as long as no hole came before. */
  lemma ExpandedLeaf(d: Disk, root: nat, level: nat, j: nat)
    requires DiskOk(d) && j < Power(Fanout(d), level) && Expand(d, [root], level).Ok?
    requires forall i :: 0 <= i <= j ==> LeafAt(d, root, level, i).Some?
    ensures var list := Expand(d, [root], level).value;
            j < |list| && Some(list[j]) == LeafAt(d, root, level, j)
  {
    hide Expand, DepthFirst, LeafAt, Power, Fanout, Filled;
    var leaves := DepthFirst(d, [root], level);
    TreeLeaf(d, root, level, j);
    if Lead(leaves) <= j {
      TreeLeaf(d, root, level, Lead(leaves));
    }
    ExpandAgrees(d, [root], level, j + 1);
    assert Expand(d, [root], level).value[..j + 1][j] == Filled(leaves)[..j + 1][j];
  }

  // ---- the contents of a file ----

  /** Byte `i` of some blocks. */
  function ByteAt(d: Disk, fragments: seq<nat>, i: nat): Option<byte>
    requires d.blockSize > 0 && i < |fragments| * d.blockSize
  {
    BlockInRange(i, |fragments|, d.blockSize);
    ByteOfBlock(d, fragments[Quotient(i, d.blockSize)], Remainder(i, d.blockSize))
  }

  function ByteOfBlock(d: Disk, fragment: nat, i: nat): Option<byte> {
    var p := fragment * d.fragSize + i;
    if fragment == 0 then Some(0) else if p < |d.data| then Some(d.data[p]) else None
  }

  lemma BlockInRange(i: nat, n: nat, size: nat)
    requires size > 0 && i < n * size
    ensures Quotient(i, size) < n && Remainder(i, size) < size
  {
    DigitInRange(i, n, size);
  }

  /** `n` bytes can be read of the block. */
  predicate Enough(d: Disk, fragment: nat, n: nat) {
    fragment == 0 || fragment * d.fragSize + n <= |d.data|
  }

  /** Each block holds its share of the next `size` bytes. */
  predicate Available(d: Disk, fragments: seq<nat>, size: nat) {
    fragments == []
    || (Enough(d, fragments[0], Min(d.blockSize, size))
        && (size <= d.blockSize || Available(d, fragments[1..], size - d.blockSize)))
  }

  /** The first `size` bytes of the blocks were yielded, as far as there are blocks, and nothing was raised. */
  ghost predicate Reads(d: Disk, out: Output, fragments: seq<nat>, size: nat)
    requires d.blockSize > 0
  {
    && out.error == None && |out.bytes| == Min(|fragments| * d.blockSize, size)
    && out.remaining == size - |out.bytes|
    && forall i :: 0 <= i < |out.bytes| ==> ByteAt(d, fragments, i) == Some(out.bytes[i])
  }

  lemma ShiftedBlock(n: nat, m: nat, size: nat, i: nat)
    requires size > 0 && i < m * size
    ensures n * size + i < (n + m) * size
    ensures Quotient(n * size + i, size) == n + Quotient(i, size)
    ensures Remainder(n * size + i, size) == Remainder(i, size)
  {
    var q, r := i / size, i % size;
    assert i == q * size + r;
    SumTimes(n, q, size);
    SumTimes(n, m, size);
    DivisionIs(n * size + i, size, n + q, r);
  }

  lemma LaterByte(d: Disk, a: seq<nat>, b: seq<nat>, i: nat)
    requires d.blockSize > 0 && i < |b| * d.blockSize
    ensures |a| * d.blockSize + i < |a + b| * d.blockSize
    ensures ByteAt(d, a + b, |a| * d.blockSize + i) == ByteAt(d, b, i)
  {
    hide ByteOfBlock, Quotient, Remainder;
    ShiftedBlock(|a|, |b|, d.blockSize, i);
    BlockInRange(i, |b|, d.blockSize);
  }

  lemma EarlierByte(d: Disk, a: seq<nat>, b: seq<nat>, i: nat)
    requires d.blockSize > 0 && i < |a| * d.blockSize
    ensures i < |a + b| * d.blockSize && ByteAt(d, a + b, i) == ByteAt(d, a, i)
  {
    hide ByteOfBlock, Quotient, Remainder;
    SumTimes(|a|, |b|, d.blockSize);
    BlockInRange(i, |a|, d.blockSize);
  }

  lemma SumTimes(a: nat, b: nat, size: nat)
    ensures (a + b) * size == a * size + b * size
  {
  }

  /** Reading some blocks and then others is reading them all. */
  lemma ReadsOn(d: Disk, first: Output, a: seq<nat>, second: Output, b: seq<nat>, size: nat)
    requires d.blockSize > 0 && Reads(d, first, a, size) && Reads(d, second, b, first.remaining)
    ensures Reads(d, Before(first.bytes, second), a + b, size)
  {
    hide ByteAt;
    var out := Before(first.bytes, second);
    SumTimes(|a|, |b|, d.blockSize);
    forall i | 0 <= i < |out.bytes|
      ensures ByteAt(d, a + b, i) == Some(out.bytes[i])
    {
      if i < |first.bytes| {
        EarlierByte(d, a, b, i);
      } else {
        LaterByte(d, a, b, i - |first.bytes|);
      }
    }
  }

  lemma OneBlock(d: Disk, fragment: nat, n: nat, chunk: seq<byte>, size: nat)
    requires d.blockSize > 0 && n == Min(d.blockSize, size) && Enough(d, fragment, n)
    requires n <= |chunk| <= d.blockSize && ReadData(d, fragment, |chunk|) == Ok(chunk)
    ensures Reads(d, Output(chunk[..n], size - n, None), [fragment], size)
  {
    hide ByteAt, ByteOfBlock, ReadData;
    forall i | 0 <= i < n
      ensures ByteAt(d, [fragment], i) == Some(chunk[i])
    {
      ByteInBlock(d, [fragment], 0, i);
      ByteOfData(d, fragment, chunk, i);
    }
  }

  lemma ByteOfData(d: Disk, fragment: nat, chunk: seq<byte>, i: nat)
    requires i < |chunk| && ReadData(d, fragment, |chunk|) == Ok(chunk)
    ensures ByteOfBlock(d, fragment, i) == Some(chunk[i])
  {
  }

  lemma ByteInBlock(d: Disk, fragments: seq<nat>, block: nat, i: nat)
    requires i < d.blockSize && block < |fragments|
    ensures block * d.blockSize + i < |fragments| * d.blockSize
    ensures ByteAt(d, fragments, block * d.blockSize + i) == ByteOfBlock(d, fragments[block], i)
  {
    hide ByteOfBlock;
    DivisionIs(block * d.blockSize + i, d.blockSize, block, i);
    PlaceInside(|fragments|, d.blockSize, block, i);
  }

  lemma NoBlocks(d: Disk, size: nat)
    requires d.blockSize > 0
    ensures Reads(d, Output([], size, None), [], size)
  {
  }

  lemma NothingMissing(d: Disk, fragments: seq<nat>)
    requires d.blockSize > 0
    ensures Reads(d, Output([], 0, None), fragments, 0)
  {
  }

  lemma {:induction false} DirectReads(d: Disk, fragments: seq<nat>, size: nat)
    requires d.blockSize > 0 && Available(d, fragments, size)
    ensures Reads(d, Direct(d, fragments, size), fragments, size)
    decreases |fragments|
  {
    if fragments == [] {
      NoBlocks(d, size);
    } else {
      hide Reads, ReadData;
      var rest := fragments[1..];
      FirstBlock(d, fragments[0], d.blockSize, size);
      var chunk := ReadData(d, fragments[0], d.blockSize).value;
      var n := Min(|chunk|, size);
      OneBlock(d, fragments[0], n, chunk, size);
      assert [fragments[0]] + rest == fragments;
      if n == size {
        NothingMissing(d, rest);
        ReadsOn(d, Output(chunk[..n], size - n, None), [fragments[0]], Output([], 0, None), rest, size);
        ConcatAssociates(chunk[..n], [], []);
      } else {
        DirectReads(d, rest, size - n);
        ReadsOn(d, Output(chunk[..n], size - n, None), [fragments[0]], Direct(d, rest, size - n), rest, size);
      }
    }
  }

  /** An available block is read, at least as far as it is needed. */
  lemma FirstBlock(d: Disk, fragment: nat, n: nat, size: nat)
    requires Min(d.blockSize, size) <= n <= d.blockSize && Enough(d, fragment, Min(d.blockSize, size))
    ensures ReadData(d, fragment, n).Ok?
    ensures var chunk := ReadData(d, fragment, n).value;
            Min(d.blockSize, size) <= |chunk| <= n && ReadData(d, fragment, |chunk|) == Ok(chunk)
  {
  }

  lemma {:induction false} LeavesRead(d: Disk, fragments: seq<nat>, size: nat)
    requires d.blockSize > 0 && (size == 0 || Available(d, fragments, size))
    ensures Reads(d, Leaves(d, fragments, size), fragments, size)
    decreases |fragments|
  {
    if fragments == [] {
      NoBlocks(d, size);
    } else if size == 0 {
      NothingMissing(d, fragments);
    } else {
      hide Reads, ReadData;
      var rest, n := fragments[1..], Min(d.blockSize, size);
      FirstBlock(d, fragments[0], n, size);
      var chunk := ReadData(d, fragments[0], n).value;
      OneBlock(d, fragments[0], n, chunk, size);
      assert [fragments[0]] + rest == fragments && chunk[..n] == chunk;
      LeavesRead(d, rest, size - n);
      ReadsOn(d, Output(chunk[..n], size - n, None), [fragments[0]], Leaves(d, rest, size - n), rest, size);
    }
  }

  // ---- what is read, and what should be ----

  /** The blocks that are read of trees that are each a level higher than the one before. */
  function TreesRead(d: Disk, roots: seq<nat>, level: nat, size: nat): seq<nat>
    requires DiskOk(d)
    decreases |roots|
  {
    if roots == [] || roots[0] == 0 || size == 0 then []
    else
      match Expand(d, [roots[0]], level)
      case Err(_) => []
      case Ok(list) => list + TreesRead(d, roots[1..], level + 1, size - Min(|list| * d.blockSize, size))
  }

  /** No pointer block that is looked at is cut off, and each data block that is read holds its share. */
  predicate TreesReadable(d: Disk, roots: seq<nat>, level: nat, size: nat)
    requires DiskOk(d)
    decreases |roots|
  {
    roots == [] || roots[0] == 0 || size == 0
    || match Expand(d, [roots[0]], level)
       case Err(_) => false
       case Ok(list) =>
         Available(d, list, size) && TreesReadable(d, roots[1..], level + 1, size - Min(|list| * d.blockSize, size))
  }

  lemma ReadAre(d: Disk, out: Output, fragments: seq<nat>, size: nat)
    requires d.blockSize > 0 && Reads(d, out, fragments, size)
    ensures out.error == None && |out.bytes| == Min(|fragments| * d.blockSize, size) == size - out.remaining
  {
  }

  lemma {:induction false} IndirectReads(d: Disk, roots: seq<nat>, level: nat, size: nat)
    requires DiskOk(d) && d.blockSize > 0 && TreesReadable(d, roots, level, size)
    ensures Reads(d, Indirect(d, roots, level, size), TreesRead(d, roots, level, size), size)
    decreases |roots|
  {
    hide Expand, Available, Leaves, ByteAt, Reads;
    if size == 0 {
      NothingMissing(d, []);
    } else if roots == [] || roots[0] == 0 {
      NoBlocks(d, size);
    } else {
      var list, rest := Expand(d, [roots[0]], level).value, roots[1..];
      LeavesRead(d, list, size);
      var out := Leaves(d, list, size);
      ReadAre(d, out, list, size);
      IndirectReads(d, rest, level + 1, out.remaining);
      ReadsOn(d, out, list, Indirect(d, rest, level + 1, out.remaining),
              TreesRead(d, rest, level + 1, out.remaining), size);
    }
  }

  function BlocksRead(d: Disk, n: Inode): seq<nat>
    requires DiskOk(d)
  {
    n.direct + TreesRead(d, n.indirect, 1, n.size - Min(|n.direct| * d.blockSize, n.size))
  }

  predicate Readable(d: Disk, n: Inode)
    requires DiskOk(d)
  {
    && Available(d, n.direct, n.size)
    && TreesReadable(d, n.indirect, 1, n.size - Min(|n.direct| * d.blockSize, n.size))
  }

  /** Exactly the blocks that are not in holes are yielded, up to the first zero root and the size of the inode. */
  lemma ContentIsBlocksRead(d: Disk, n: Inode)
    requires DiskOk(d) && d.blockSize > 0 && Readable(d, n)
    ensures Reads(d, FileContent(d, n), BlocksRead(d, n), n.size)
  {
    hide Direct, Indirect, TreesRead, Available, TreesReadable, ByteAt;
    DirectReads(d, n.direct, n.size);
    var out := Direct(d, n.direct, n.size);
    IndirectReads(d, n.indirect, 1, out.remaining);
    ReadsOn(d, out, n.direct, Indirect(d, n.indirect, 1, out.remaining),
            TreesRead(d, n.indirect, 1, out.remaining), n.size);
  }

  /** The data blocks of trees that are each a level higher than the one before. */
  function TreeLeaves(d: Disk, roots: seq<nat>, level: nat): seq<Leaf>
    requires DiskOk(d)
    decreases |roots|
  {
    if roots == [] then [] else DepthFirst(d, [roots[0]], level) + TreeLeaves(d, roots[1..], level + 1)
  }

  function FileLeaves(d: Disk, n: Inode): seq<Leaf>
    requires DiskOk(d)
  {
    Known(n.direct) + TreeLeaves(d, n.indirect, 1)
  }

  /** The blocks of a file, holes filled with zeros. */
  function AllBlocks(d: Disk, n: Inode): seq<nat>
    requires DiskOk(d)
  {
    Filled(FileLeaves(d, n))
  }

  /** What is read agrees with the leaves up to the first hole, and gets as far unless the size is reached before. */
  ghost predicate Agrees(fragments: seq<nat>, leaves: seq<Leaf>, blockSize: nat, size: nat) {
    && (forall k :: 0 <= k < |fragments| && k < Lead(leaves) ==> leaves[k] == Some(fragments[k]))
    && (Lead(leaves) <= |fragments| || size <= |fragments| * blockSize)
  }

  lemma {:induction false} LeadConcat(a: seq<Leaf>, b: seq<Leaf>)
    ensures Lead(a + b) == if Lead(a) == |a| then |a| + Lead(b) else Lead(a)
    decreases |a|
  {
    if a == [] {
      ConcatAssociates(b, [], []);
    } else {
      assert (a + b)[1..] == a[1..] + b;
      LeadConcat(a[1..], b);
    }
  }

  lemma AgreesOn(list: seq<nat>, a: seq<Leaf>, rest: seq<nat>, b: seq<Leaf>, blockSize: nat, size: nat)
    requires list == Present(a) && Agrees(rest, b, blockSize, size - Min(|list| * blockSize, size))
    ensures Agrees(list + rest, a + b, blockSize, size)
  {
    hide Lead, Present, Filled;
    PresentLead(a);
    LeadConcat(a, b);
    SumTimes(|list|, |rest|, blockSize);
    forall k | 0 <= k < |list + rest| && k < Lead(a + b)
      ensures (a + b)[k] == Some((list + rest)[k])
    {
      if k < Lead(a) {
        assert list[..Lead(a)][k] == Filled(a)[..Lead(a)][k];
      }
    }
  }

  lemma EmptyTrees(d: Disk, roots: seq<nat>, level: nat)
    requires DiskOk(d) && Fanout(d) == 0 && level > 0
    ensures TreeLeaves(d, roots, level) == []
    decreases |roots|
  {
    if roots != [] {
      hide DepthFirst, Fanout;
      DepthFirstLength(d, [roots[0]], level);
      EmptyTrees(d, roots[1..], level + 1);
    }
  }

  lemma FirstHole(d: Disk, roots: seq<nat>, level: nat)
    requires DiskOk(d) && Fanout(d) > 0 && level > 0 && roots != [] && roots[0] == 0
    ensures Lead(TreeLeaves(d, roots, level)) == 0
  {
    hide Fanout;
    PowerPositive(Fanout(d), level);
    DepthFirstStep(d, [roots[0]], level);
  }

  lemma {:induction false} TreesAgree(d: Disk, roots: seq<nat>, level: nat, size: nat)
    requires DiskOk(d) && level > 0 && TreesReadable(d, roots, level, size)
    ensures Agrees(TreesRead(d, roots, level, size), TreeLeaves(d, roots, level), d.blockSize, size)
    decreases |roots|
  {
    hide Expand, DepthFirst, Fanout, Available, Agrees;
    if Fanout(d) == 0 {
      EmptyTrees(d, roots, level);
      NoneToAgree(TreesRead(d, roots, level, size), [], d.blockSize, size);
    } else if roots == [] || size == 0 {
      NoneToAgree([], TreeLeaves(d, roots, level), d.blockSize, size);
    } else if roots[0] == 0 {
      FirstHole(d, roots, level);
      NoneToAgree([], TreeLeaves(d, roots, level), d.blockSize, size);
    } else {
      var list := Expand(d, [roots[0]], level).value;
      var left := size - Min(|list| * d.blockSize, size);
      ExpandIsPresent(d, [roots[0]], level);
      TreesAgree(d, roots[1..], level + 1, left);
      AgreesOn(list, DepthFirst(d, [roots[0]], level), TreesRead(d, roots[1..], level + 1, left),
               TreeLeaves(d, roots[1..], level + 1), d.blockSize, size);
    }
  }

  lemma NoneToAgree(fragments: seq<nat>, leaves: seq<Leaf>, blockSize: nat, size: nat)
    requires Lead(leaves) == 0 || (fragments == [] && size == 0)
    ensures Agrees(fragments, leaves, blockSize, size)
  {
  }

  lemma FileAgrees(d: Disk, n: Inode)
    requires DiskOk(d) && Readable(d, n)
    ensures Agrees(BlocksRead(d, n), FileLeaves(d, n), d.blockSize, n.size)
  {
    hide Agrees, Known, TreeLeaves, TreesRead, Available;
    var left := n.size - Min(|n.direct| * d.blockSize, n.size);
    TreesAgree(d, n.indirect, 1, left);
    PresentOfKnown(n.direct);
    AgreesOn(n.direct, Known(n.direct), TreesRead(d, n.indirect, 1, left),
             TreeLeaves(d, n.indirect, 1), d.blockSize, n.size);
  }

  /** The whole file comes out, byte for byte, and exactly as long as the inode says. */
  ghost predicate ComesOut(d: Disk, n: Inode)
    requires DiskOk(d) && d.blockSize > 0 && n.size <= |AllBlocks(d, n)| * d.blockSize
  {
    var out := FileContent(d, n);
    && out.error == None && |out.bytes| == n.size
    && forall i :: 0 <= i < n.size ==> ByteAt(d, AllBlocks(d, n), i) == Some(out.bytes[i])
  }

  lemma FewerBlocks(a: nat, b: nat, size: nat)
    requires a <= b
    ensures a * size <= b * size
  {
    MoreTimes(a, b, size);
  }

  /** It does when the file ends before its first hole, whatever stands behind its end. */
  lemma FileIsRead(d: Disk, n: Inode)
    requires DiskOk(d) && d.blockSize > 0 && Readable(d, n) && n.size <= Lead(FileLeaves(d, n)) * d.blockSize
    ensures n.size <= |AllBlocks(d, n)| * d.blockSize && ComesOut(d, n)
  {
    hide FileContent, BlocksRead, FileLeaves, ByteOfBlock, Readable, Quotient, Remainder;
    var out, read, leaves := FileContent(d, n), BlocksRead(d, n), FileLeaves(d, n);
    ContentIsBlocksRead(d, n);
    FileAgrees(d, n);
    FewerBlocks(Lead(leaves), |leaves|, d.blockSize);
    if Lead(leaves) <= |read| {
      FewerBlocks(Lead(leaves), |read|, d.blockSize);
    }
    forall i | 0 <= i < n.size
      ensures ByteAt(d, AllBlocks(d, n), i) == Some(out.bytes[i])
    {
      BlockInRange(i, Lead(leaves), d.blockSize);
      BlockInRange(i, |read|, d.blockSize);
      assert ByteAt(d, read, i) == Some(out.bytes[i]);
    }
  }

  /** The first `n` bytes of the block read as zeros. */
  ghost predicate LooksEmpty(d: Disk, fragment: nat, n: nat) {
    forall i :: 0 <= i < n ==> ByteOfBlock(d, fragment, i) == Some(0)
  }

  /** A block is read in the place of the first hole, and it does not look like one. */
  ghost predicate HoleShows(d: Disk, n: Inode)
    requires DiskOk(d)
  {
    var hole := Lead(FileLeaves(d, n));
    hole < |BlocksRead(d, n)| && hole * d.blockSize < n.size ==>
      !LooksEmpty(d, BlocksRead(d, n)[hole], Min(d.blockSize, n.size - hole * d.blockSize))
  }

  /** When a file that reaches into a hole comes out all the same, then by chance: zeros were read in its place. */
  lemma HoleIsRead(d: Disk, n: Inode)
    requires DiskOk(d) && d.blockSize > 0 && Readable(d, n) && n.size <= |AllBlocks(d, n)| * d.blockSize
    ensures Lead(FileLeaves(d, n)) * d.blockSize < n.size && ComesOut(d, n) ==> !HoleShows(d, n)
  {
    hide *;
    if Lead(FileLeaves(d, n)) * d.blockSize < n.size && ComesOut(d, n) {
      PlaceOfHole(d, n);
    }
  }

  lemma PlaceOfHole(d: Disk, n: Inode)
    requires DiskOk(d) && d.blockSize > 0 && Readable(d, n) && n.size <= |AllBlocks(d, n)| * d.blockSize
    requires Lead(FileLeaves(d, n)) * d.blockSize < n.size && ComesOut(d, n)
    ensures !HoleShows(d, n)
  {
    hide FileContent, BlocksRead, FileLeaves, ByteOfBlock, Readable, Quotient, Remainder;
    var out, read, leaves := FileContent(d, n), BlocksRead(d, n), FileLeaves(d, n);
    var hole, size := Lead(leaves), d.blockSize;
    ContentIsBlocksRead(d, n);
    if |leaves| <= hole {
      FewerBlocks(|leaves|, hole, size);
    }
    if |read| <= hole {
      FewerBlocks(|read|, hole, size);
    }
    forall i | 0 <= i < Min(size, n.size - hole * size)
      ensures ByteOfBlock(d, read[hole], i) == Some(0)
    {
      var at := hole * size + i;
      ByteInBlock(d, read, hole, i);
      ByteInBlock(d, AllBlocks(d, n), hole, i);
      assert ByteAt(d, read, at) == Some(out.bytes[at]) == ByteAt(d, AllBlocks(d, n), at);
      EmptyBlock(d, i);
    }
  }

  lemma EmptyBlock(d: Disk, i: nat)
    ensures ByteOfBlock(d, 0, i) == Some(0)
  {
  }

  // ---- a file that comes out is readable ----

  lemma OneMoreBlock(n: nat, size: nat)
    requires n > 0
    ensures n * size == size + (n - 1) * size
  {
    SumTimes(1, n - 1, size);
  }

  /** A direct block that is cut off leaves a byte that is not in the image, in the place where it belongs. */
  lemma {:induction false} CutOffDirect(d: Disk, fragments: seq<nat>, size: nat) returns (at: nat)
    requires d.blockSize > 0 && Direct(d, fragments, size).error == None && !Available(d, fragments, size)
    ensures at < size && at < |fragments| * d.blockSize && ByteAt(d, fragments, at) == None
    decreases |fragments|
  {
    hide ByteAt;
    OneMoreBlock(|fragments|, d.blockSize);
    if !Enough(d, fragments[0], Min(d.blockSize, size)) {
      at := |d.data| - fragments[0] * d.fragSize;
      ByteInBlock(d, fragments, 0, at);
    } else {
      at := CutOffDirect(d, fragments[1..], size - d.blockSize);
      assert [fragments[0]] + fragments[1..] == fragments;
      LaterByte(d, [fragments[0]], fragments[1..], at);
      at := d.blockSize + at;
    }
  }

  lemma {:induction false} LeavesRemaining(d: Disk, fragments: seq<nat>, size: nat)
    requires Leaves(d, fragments, size).error == None
    ensures Leaves(d, fragments, size).remaining == size - Min(|fragments| * d.blockSize, size)
    decreases |fragments|
  {
    if fragments != [] && size > 0 {
      OneMoreBlock(|fragments|, d.blockSize);
      LeavesRemaining(d, fragments[1..], size - Min(d.blockSize, size));
    }
  }

  /** A block of a tree that is cut off leaves the file too short. */
  lemma {:induction false} CutOffLeaf(d: Disk, fragments: seq<nat>, size: nat)
    requires size > 0 && Leaves(d, fragments, size).error == None
    requires |Leaves(d, fragments, size).bytes| + Leaves(d, fragments, size).remaining == size
    ensures Available(d, fragments, size)
    decreases |fragments|
  {
    if fragments != [] {
      LeavesLength(d, fragments[1..], size - Min(d.blockSize, size));
      if size > d.blockSize {
        CutOffLeaf(d, fragments[1..], size - d.blockSize);
      }
    }
  }

  lemma {:induction false} CutOffTree(d: Disk, roots: seq<nat>, level: nat, size: nat)
    requires DiskOk(d) && Indirect(d, roots, level, size).error == None
    requires |Indirect(d, roots, level, size).bytes| == size
    ensures TreesReadable(d, roots, level, size)
    decreases |roots|
  {
    hide Leaves, Expand, Available, Fanout;
    if roots != [] && roots[0] != 0 && size > 0 {
      var list := Expand(d, [roots[0]], level).value;
      var out := Leaves(d, list, size);
      LeavesLength(d, list, size);
      LeavesRemaining(d, list, size);
      IndirectLength(d, roots[1..], level + 1, out.remaining);
      CutOffLeaf(d, list, size);
      CutOffTree(d, roots[1..], level + 1, out.remaining);
    }
  }

  lemma DirectByte(d: Disk, n: Inode, at: nat)
    requires DiskOk(d) && d.blockSize > 0 && at < |n.direct| * d.blockSize
    ensures at < |AllBlocks(d, n)| * d.blockSize && ByteAt(d, AllBlocks(d, n), at) == ByteAt(d, n.direct, at)
  {
    hide TreeLeaves, ByteAt;
    var trees := Filled(TreeLeaves(d, n.indirect, 1));
    assert AllBlocks(d, n) == n.direct + trees;
    EarlierByte(d, n.direct, trees, at);
  }

  /** Nothing that is needed may be cut off: of the direct blocks, the trees or their pointer blocks. */
  lemma ReadableIsNeeded(d: Disk, n: Inode)
    requires DiskOk(d) && d.blockSize > 0 && n.size <= |AllBlocks(d, n)| * d.blockSize && ComesOut(d, n)
    ensures Readable(d, n)
  {
    hide Direct, Indirect, Available, TreesReadable, ByteAt, AllBlocks, Reads;
    var out := Direct(d, n.direct, n.size);
    if !Available(d, n.direct, n.size) {
      var at := CutOffDirect(d, n.direct, n.size);
      DirectByte(d, n, at);
      assert false;
    }
    DirectReads(d, n.direct, n.size);
    ReadAre(d, out, n.direct, n.size);
    CutOffTree(d, n.indirect, 1, out.remaining);
  }

  /**
   A file comes out if and only if nothing that is needed of it is cut off, and it ends before its first
   hole, a zero pointer above the data blocks or in the place of a root, provided that the block read in the
   place of the hole does not look like one.
   */
  lemma ContentIffNoHole(d: Disk, n: Inode)
    requires DiskOk(d) && d.blockSize > 0 && n.size <= |AllBlocks(d, n)| * d.blockSize
    ensures HoleShows(d, n) ==>
              (ComesOut(d, n) <==> Readable(d, n) && n.size <= Lead(FileLeaves(d, n)) * d.blockSize)
  {
    hide *;
    if ComesOut(d, n) {
      ReadableIsNeeded(d, n);
      HoleIsRead(d, n);
    }
    if Readable(d, n) && n.size <= Lead(FileLeaves(d, n)) * d.blockSize {
      FileIsRead(d, n);
    }
  }

  /** Whatever the image holds, no more is yielded than the inode says. */
  lemma NeverTooLong(d: Disk, n: Inode)
    requires DiskOk(d)
    ensures |FileContent(d, n).bytes| <= n.size
  {
    DirectLength(d, n.direct, n.size);
    var out := Direct(d, n.direct, n.size);
    if out.error.None? {
      IndirectLength(d, n.indirect, 1, out.remaining);
    }
  }

  lemma {:induction false} DirectLength(d: Disk, fragments: seq<nat>, size: nat)
    ensures var out := Direct(d, fragments, size); |out.bytes| + out.remaining <= size
    decreases |fragments|
  {
    if fragments != [] {
      var r := ReadData(d, fragments[0], d.blockSize);
      if r.Ok? && |r.value| < size {
        DirectLength(d, fragments[1..], size - |r.value|);
      }
    }
  }

  lemma {:induction false} LeavesLength(d: Disk, fragments: seq<nat>, size: nat)
    ensures var out := Leaves(d, fragments, size); |out.bytes| + out.remaining <= size
    decreases |fragments|
  {
    if fragments != [] && size > 0 {
      LeavesLength(d, fragments[1..], size - Min(d.blockSize, size));
    }
  }

  lemma {:induction false} IndirectLength(d: Disk, roots: seq<nat>, level: nat, size: nat)
    requires DiskOk(d)
    ensures |Indirect(d, roots, level, size).bytes| <= size
    decreases |roots|
  {
    if roots != [] && roots[0] != 0 && size > 0 && Expand(d, [roots[0]], level).Ok? {
      hide Leaves, Expand;
      var indexes := Expand(d, [roots[0]], level).value;
      LeavesLength(d, indexes, size);
      var out := Leaves(d, indexes, size);
      IndirectLength(d, roots[1..], level + 1, out.remaining);
    }
  }

  /** Where block `b` of a file is: a direct block, or the place its digits lead to in one of the trees. */
  function BlockOf(d: Disk, n: Inode, b: nat): Leaf
    requires DiskOk(d) && InodeOk(n)
    requires b < 12 + Power(Fanout(d), 1) + Power(Fanout(d), 2) + Power(Fanout(d), 3)
  {
    var b1 := b - 12;
    var b2 := b1 - Power(Fanout(d), 1);
    var b3 := b2 - Power(Fanout(d), 2);
    if b1 < 0 then Some(n.direct[b])
    else if b2 < 0 then LeafAt(d, n.indirect[0], 1, b1)
    else if b3 < 0 then LeafAt(d, n.indirect[1], 2, b2)
    else LeafAt(d, n.indirect[2], 3, b3)
  }

  lemma TreeSize(d: Disk, root: nat, level: nat)
    requires DiskOk(d)
    ensures |DepthFirst(d, [root], level)| == Power(Fanout(d), level)
  {
    hide *;
    DepthFirstLength(d, [root], level);
  }

  lemma ThreeTrees(d: Disk, n: Inode)
    requires DiskOk(d) && InodeOk(n)
    ensures TreeLeaves(d, n.indirect, 1) ==
            DepthFirst(d, [n.indirect[0]], 1) + DepthFirst(d, [n.indirect[1]], 2) + DepthFirst(d, [n.indirect[2]], 3)
  {
    hide DepthFirst;
    var r := n.indirect;
    assert r[1..][0] == r[1] && r[1..][1..] == r[2..] && r[2..][0] == r[2] && r[2..][1..] == [];
    assert TreeLeaves(d, r[2..], 3) == DepthFirst(d, [r[2]], 3) + TreeLeaves(d, [], 4);
    assert TreeLeaves(d, r[1..], 2) == DepthFirst(d, [r[1]], 2) + TreeLeaves(d, r[2..], 3);
    assert TreeLeaves(d, [], 4) == [];
  }

  /** The blocks of a file are those its numbers lead to. */
  lemma FileLeavesAre(d: Disk, n: Inode, b: nat)
    requires DiskOk(d) && InodeOk(n)
    requires b < 12 + Power(Fanout(d), 1) + Power(Fanout(d), 2) + Power(Fanout(d), 3)
    ensures |FileLeaves(d, n)| == 12 + Power(Fanout(d), 1) + Power(Fanout(d), 2) + Power(Fanout(d), 3)
    ensures FileLeaves(d, n)[b] == BlockOf(d, n, b)
  {
    hide DepthFirst, Power, TreeLeaves, LeafAt, Fanout;
    ThreeTrees(d, n);
    TreeSize(d, n.indirect[0], 1);
    TreeSize(d, n.indirect[1], 2);
    TreeSize(d, n.indirect[2], 3);
    var b1 := b - 12;
    var b2 := b1 - Power(Fanout(d), 1);
    var b3 := b2 - Power(Fanout(d), 2);
    if b1 >= 0 && b2 < 0 {
      TreeLeaf(d, n.indirect[0], 1, b1);
    } else if b2 >= 0 && b3 < 0 {
      TreeLeaf(d, n.indirect[1], 2, b2);
    } else if b3 >= 0 {
      TreeLeaf(d, n.indirect[2], 3, b3);
    }
  }

  // ---- a hole ----

  /** Blocks of eight bytes with two pointers each; the first pointer of the upper block is zero. */
  const HOLED := Disk(Zeros(8) + [0, 0, 0, 0, 2, 0, 0, 0] + [3, 0, 0, 0, 4, 0, 0, 0]
                      + [1, 1, 1, 1, 1, 1, 1, 1] + [1, 1, 1, 1, 1, 1, 1, 1], 8, 8, 4)

  /** The blocks behind a hole are read in its place. */
  lemma HoleIsSkipped()
    ensures Expand(HOLED, [1], 2) == Ok([3, 4])
    ensures DepthFirst(HOLED, [1], 2) == [None, None, Some(3), Some(4)]
    ensures Expand(HOLED, [2], 1) == Ok([3, 4])
    ensures DepthFirst(HOLED, [2], 1) == [Some(3), Some(4)]
  {
    var upper, lower := HOLED.data[8..16], HOLED.data[16..24];
    assert upper == [0, 0, 0, 0, 2, 0, 0, 0] && lower == [3, 0, 0, 0, 4, 0, 0, 0];
    TwoPointers(upper, 0, 2);
    TwoPointers(lower, 3, 4);
    assert ReadPointers(HOLED, 1) == Ok([0, 2]);
    assert ReadPointers(HOLED, 2) == Ok([3, 4]);
    assert NextIndexes(HOLED, [1]) == Ok([0, 2] + []);
    assert NextIndexes(HOLED, [0, 2]) == NextIndexes(HOLED, [2]);
    assert NextIndexes(HOLED, [2]) == Ok([3, 4] + []);
    assert [0, 2] + [] == [0, 2] && [3, 4] + [] == [3, 4];
    assert Expand(HOLED, [3, 4], 0) == Ok([3, 4]);
    assert Expand(HOLED, [0, 2], 1) == Ok([3, 4]);
    assert Expand(HOLED, [2], 1) == Ok([3, 4]);
    assert Fanout(HOLED) == 2 && Power(2, 0) == 1 && Power(2, 1) == 2;
    HoledLeaves();
  }

  lemma HoledLeaves()
    requires ReadPointers(HOLED, 1) == Ok([0, 2]) && ReadPointers(HOLED, 2) == Ok([3, 4])
    requires Fanout(HOLED) == 2 && Power(2, 1) == 2
    ensures DepthFirst(HOLED, [2], 1) == [Some(3), Some(4)]
    ensures DepthFirst(HOLED, [1], 2) == [None, None, Some(3), Some(4)]
  {
    hide ReadPointers, Fanout, Power;
    assert [2][1..] == [] && [1][1..] == [] && [0, 2][1..] == [2];
    DepthFirstStep(HOLED, [1], 2);
    DepthFirstStep(HOLED, [0, 2], 1);
    DepthFirstStep(HOLED, [2], 1);
    NothingBelow(HOLED, 1);
    NothingBelow(HOLED, 2);
    assert Below(HOLED, 0, 1) == [None, None] && Below(HOLED, 2, 1) == [Some(3), Some(4)];
    assert Below(HOLED, 1, 2) == DepthFirst(HOLED, [0, 2], 1);
  }

  lemma TwoPointers(b: seq<byte>, p: byte, q: byte)
    requires b == [p, 0, 0, 0, q, 0, 0, 0]
    ensures Unpack(b, 2, 4) == [p, q]
  {
    assert b[..4] == [p, 0, 0, 0] && b[4..] == [q, 0, 0, 0] && b[4..][..4] == [q, 0, 0, 0];
    FourBytes(p, 0, 0, 0);
    FourBytes(q, 0, 0, 0);
    assert Unpack(b[4..], 1, 4) == [LittleEndian(b[4..][..4])] + Unpack(b[4..][4..], 0, 4);
  }

  /** Twelve sparse blocks, a tree with two blocks, and one with a hole of two blocks before two others. */
  const HOLED_INODE := Inode(144, NO_BLOCKS, [2, 1, 0])

  const NO_BLOCKS: seq<nat> := [0, 0, 0, 0, 0, 0, 0, 0, 0, 0, 0, 0]

  lemma {:induction false} SparseIsAvailable(d: Disk, fragments: seq<nat>, size: nat)
    requires forall k :: 0 <= k < |fragments| ==> fragments[k] == 0
    ensures Available(d, fragments, size)
    decreases |fragments|
  {
    if fragments != [] && size > d.blockSize {
      SparseIsAvailable(d, fragments[1..], size - d.blockSize);
    }
  }

  lemma HoledTreesRead()
    ensures TreesReadable(HOLED, [2, 1, 0], 1, 48) && TreesRead(HOLED, [2, 1, 0], 1, 48) == [3, 4, 3, 4]
  {
    hide Expand;
    HoleIsSkipped();
    assert [2, 1, 0][1..] == [1, 0] && [1, 0][1..] == [0] && [3, 4][1..] == [4];
    assert TreesRead(HOLED, [0], 3, 16) == [] && TreesReadable(HOLED, [0], 3, 16);
    assert |HOLED.data| == 40 && [4][1..] == [];
    assert Available(HOLED, [4], 24) && Available(HOLED, [4], 40);
    assert Available(HOLED, [3, 4], 32) && Available(HOLED, [3, 4], 48);
    assert TreesRead(HOLED, [1, 0], 2, 32) == [3, 4] + [] && TreesReadable(HOLED, [1, 0], 2, 32);
  }

  lemma HoledTreeLeaves()
    ensures |TreeLeaves(HOLED, [2, 1, 0], 1)| >= 6
    ensures TreeLeaves(HOLED, [2, 1, 0], 1)[..6] == [Some(3), Some(4), None, None, Some(3), Some(4)]
  {
    hide DepthFirst;
    HoleIsSkipped();
    assert [2, 1, 0][1..] == [1, 0];
    assert TreeLeaves(HOLED, [1, 0], 2) == DepthFirst(HOLED, [1], 2) + TreeLeaves(HOLED, [0], 3);
    assert TreeLeaves(HOLED, [2, 1, 0], 1) == DepthFirst(HOLED, [2], 1) + TreeLeaves(HOLED, [1, 0], 2);
  }

  /** Of this file the hole is not read as zeros: the blocks behind it move forward, and the end is missing. */
  lemma HoleMovesBlocks()
    ensures |AllBlocks(HOLED, HOLED_INODE)| >= 18
    ensures ByteAt(HOLED, AllBlocks(HOLED, HOLED_INODE), 112) == Some(0)
    ensures var out := FileContent(HOLED, HOLED_INODE);
            out.error == None && |out.bytes| == 128 && out.bytes[112] == 1
  {
    hide FileContent, TreesRead, TreesReadable, TreeLeaves, Available;
    HoledTreesRead();
    HoledTreeLeaves();
    SparseIsAvailable(HOLED, NO_BLOCKS, 144);
    ContentIsBlocksRead(HOLED, HOLED_INODE);
    var leaves, read := FileLeaves(HOLED, HOLED_INODE), BlocksRead(HOLED, HOLED_INODE);
    var out := FileContent(HOLED, HOLED_INODE);
    assert read[14] == 3 && |read| == 16;
    assert TreeLeaves(HOLED, [2, 1, 0], 1)[..6][2] == leaves[14];
    ByteInBlock(HOLED, read, 14, 0);
    ByteInBlock(HOLED, AllBlocks(HOLED, HOLED_INODE), 14, 0);
    assert ByteAt(HOLED, read, 112) == Some(out.bytes[112]);
  }
}
