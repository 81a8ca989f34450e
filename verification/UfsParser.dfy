/** The parser object that reads file contents; a generator's yields are collected in a sequence. */
module UfsParser {
  import opened Bytes
  import opened Files
  import opened Ufs

  class UFSParser {
    const file: File
    const blockSize: nat
    const fragSize: nat
    const pointerSize: nat

    ghost predicate Valid()
      reads file
    {
      file.Valid() && pointerSize > 0
    }

    ghost function D(): Disk {
      Disk(file.data, blockSize, fragSize, pointerSize)
    }

    constructor (file: File, blockSize: nat, fragSize: nat, pointerSize: nat)
      requires file.Valid() && pointerSize > 0
      ensures Valid() && this.file == file && D() == Disk(file.data, blockSize, fragSize, pointerSize)
    {
      this.file, this.blockSize, this.fragSize, this.pointerSize := file, blockSize, fragSize, pointerSize;
    }

    method ReadAt(fragment: nat, n: nat) returns (r: Result<seq<byte>>)
      requires Valid()
      modifies file
      ensures Valid() && r == Ufs.ReadAt(D(), fragment, n)
    {
      var ok := file.Seek(fragment * fragSize);
      if !ok {
        return Err(SeekError);
      }
      var data := file.Read(n);
      return Ok(data);
    }

    method ReadData(fragment: nat, n: nat) returns (r: Result<seq<byte>>)
      requires Valid()
      modifies file
      ensures Valid() && r == Ufs.ReadData(D(), fragment, n)
    {
      if fragment == 0 {
        return Ok(Zeros(n));
      }
      r := ReadAt(fragment, n);
    }

    method ReadBlockPointers(fragment: nat) returns (r: Result<seq<nat>>)
      requires Valid()
      modifies file
      ensures Valid() && r == ReadPointers(D(), fragment)
    {
      hide Ufs.ReadAt;
      var data := ReadAt(fragment, blockSize);
      if data.Err? {
        return Err(data.error);
      }
      var count := blockSize / pointerSize;
      if |data.value| != count * pointerSize {
        return Err(StructError);
      }
      return Ok(Unpack(data.value, count, pointerSize));
    }

    /** The pointers of all blocks of a level; zero pointers are passed over. */
    method NextIndexes(indexes: seq<nat>) returns (r: Result<seq<nat>>)
      requires Valid()
      modifies file
      ensures Valid() && r == Ufs.NextIndexes(D(), indexes)
    {
      hide ReadPointers;
      var next: seq<nat> := [];
      JoinNothing(Ufs.NextIndexes(D(), indexes));
      assert indexes[0..] == indexes;
      for k := 0 to |indexes|
        invariant Valid() && Ufs.NextIndexes(D(), indexes) == Join(next, Ufs.NextIndexes(D(), indexes[k..]))
      {
        assert indexes[k..][0] == indexes[k] && indexes[k..][1..] == indexes[k + 1..];
        if indexes[k] != 0 {
          var pointers := ReadBlockPointers(indexes[k]);
          if pointers.Err? {
            return Err(pointers.error);
          }
          JoinMore(next, pointers.value, Ufs.NextIndexes(D(), indexes[k + 1..]));
          next := next + pointers.value;
        }
      }
      ConcatAssociates(next, [], []);
      return Ok(next);
    }

    /** The data blocks a number of levels below a pointer. */
    method Expand(root: nat, level: nat) returns (r: Result<seq<nat>>)
      requires Valid()
      modifies file
      ensures Valid() && r == Ufs.Expand(D(), [root], level)
    {
      hide Ufs.NextIndexes;
      var indexes := [root];
      for k := 0 to level
        invariant Valid() && Ufs.Expand(D(), [root], level) == Ufs.Expand(D(), indexes, level - k)
      {
        var next := NextIndexes(indexes);
        if next.Err? {
          return Err(next.error);
        }
        indexes := next.value;
      }
      return Ok(indexes);
    }

    /** The data blocks of one tree, no more than what remains. */
    method ReadLeaves(indexes: seq<nat>, size: nat)
      returns (chunks: seq<seq<byte>>, remaining: nat, error: Option<Error>)
      requires Valid()
      modifies file
      ensures Valid() && Leaves(D(), indexes, size) == Output(Flatten(chunks), remaining, error)
    {
      hide Ufs.ReadData, Flatten;
      chunks, remaining, error := [], size, None;
      NothingYielded(Leaves(D(), indexes, size));
      for k := 0 to |indexes|
        invariant Valid() && error == None
        invariant Leaves(D(), indexes, size) == Before(Flatten(chunks), Leaves(D(), indexes[k..], remaining))
      {
        assert indexes[k..][0] == indexes[k] && indexes[k..][1..] == indexes[k + 1..];
        ConcatAssociates(Flatten(chunks), [], []);
        if remaining <= 0 {
          return;
        }
        var n := Min(blockSize, remaining);
        var r := ReadData(indexes[k], n);
        if r.Err? {
          error := Some(r.error);
          return;
        }
        YieldedMore(chunks, r.value, Leaves(D(), indexes[k + 1..], remaining - n));
        chunks := chunks + [r.value];
        remaining := remaining - n;
      }
      ConcatAssociates(Flatten(chunks), [], []);
    }

    /** The trees in turn, until a pointer is zero or nothing remains. */
    method ReadIndirectBlocks(inode: Inode, size: nat) returns (chunks: seq<seq<byte>>, error: Option<Error>)
      requires Valid()
      modifies file
      ensures Valid() && Flatten(chunks) == Indirect(D(), inode.indirect, 1, size).bytes
      ensures error == Indirect(D(), inode.indirect, 1, size).error
    {
      hide Ufs.Expand, Leaves, Flatten;
      chunks, error := [], None;
      var remaining := size;
      var roots := inode.indirect;
      NothingYielded(Indirect(D(), roots, 1, size));
      for k := 0 to |roots|
        invariant Valid() && error == None
        invariant Indirect(D(), roots, 1, size) == Before(Flatten(chunks), Indirect(D(), roots[k..], k + 1, remaining))
      {
        assert roots[k..][0] == roots[k] && roots[k..][1..] == roots[k + 1..];
        ConcatAssociates(Flatten(chunks), [], []);
        if roots[k] == 0 || remaining <= 0 {
          return;
        }
        var indexes := Expand(roots[k], k + 1);
        if indexes.Err? {
          error := Some(indexes.error);
          return;
        }
        var more, rest, e := ReadLeaves(indexes.value, remaining);
        AppendedAll(chunks, more);
        ConcatAssociates(Flatten(chunks), Flatten(more), Indirect(D(), roots[k + 1..], k + 2, rest).bytes);
        chunks, remaining, error := chunks + more, rest, e;
        if error.Some? {
          return;
        }
      }
      ConcatAssociates(Flatten(chunks), [], []);
    }

    /** The file, block after block: the direct blocks first, each read whole and cut to what remains. */
    method ReadFileContent(inode: Inode) returns (chunks: seq<seq<byte>>, error: Option<Error>)
      requires Valid()
      modifies file
      ensures Valid()
      ensures Flatten(chunks) == FileContent(D(), inode).bytes && error == FileContent(D(), inode).error
    {
      hide Ufs.ReadData, Flatten, Indirect;
      var remaining: nat := inode.size;
      ghost var all := Direct(D(), inode.direct, remaining);
      chunks, error := [], None;
      NothingYielded(all);
      for k := 0 to |inode.direct|
        invariant Valid() && error == None && all == Before(Flatten(chunks), Direct(D(), inode.direct[k..], remaining))
      {
        assert inode.direct[k..][0] == inode.direct[k] && inode.direct[k..][1..] == inode.direct[k + 1..];
        ConcatAssociates(Flatten(chunks), [], []);
        var r := ReadData(inode.direct[k], blockSize);
        if r.Err? {
          error := Some(r.error);
          return;
        }
        var n := Min(|r.value|, remaining);
        YieldedMore(chunks, r.value[..n], Direct(D(), inode.direct[k + 1..], remaining - n));
        chunks := chunks + [r.value[..n]];
        remaining := remaining - n;
        if remaining <= 0 {
          NothingRemains(D(), inode.indirect, 1);
          ConcatAssociates(Flatten(chunks), [], []);
          return;
        }
      }
      ConcatAssociates(Flatten(chunks), [], []);
      var more, e := ReadIndirectBlocks(inode, remaining);
      AppendedAll(chunks, more);
      chunks, error := chunks + more, e;
    }
  }

  function Join(front: seq<nat>, rest: Result<seq<nat>>): Result<seq<nat>> {
    match rest
    case Err(e) => Err(e)
    case Ok(r) => Ok(front + r)
  }

  lemma JoinNothing(rest: Result<seq<nat>>)
    ensures Join([], rest) == rest
  {
    if rest.Ok? {
      ConcatAssociates(rest.value, [], []);
    }
  }

  lemma JoinMore(a: seq<nat>, b: seq<nat>, rest: Result<seq<nat>>)
    ensures Join(a + b, rest) == Join(a, Join(b, rest))
  {
    if rest.Ok? {
      ConcatAssociates(a, b, rest.value);
    }
  }

  lemma NothingRemains(d: Disk, roots: seq<nat>, level: nat)
    requires DiskOk(d)
    ensures Indirect(d, roots, level, 0) == Output([], 0, None)
  {
  }

  lemma NothingYielded(all: Output)
    ensures Flatten([]) == [] && Before([], all) == all
  {
    ConcatAssociates(all.bytes, [], []);
  }

  lemma YieldedMore(chunks: seq<seq<byte>>, chunk: seq<byte>, rest: Output)
    ensures Flatten(chunks + [chunk]) == Flatten(chunks) + chunk
    ensures Before(Flatten(chunks), Before(chunk, rest)) == Before(Flatten(chunks + [chunk]), rest)
  {
    assert (chunks + [chunk])[..|chunks|] == chunks;
    ConcatAssociates(Flatten(chunks), chunk, rest.bytes);
  }

  lemma {:induction false} AppendedAll(a: seq<seq<byte>>, b: seq<seq<byte>>)
    ensures Flatten(a + b) == Flatten(a) + Flatten(b)
    decreases |b|
  {
    if b == [] {
      ConcatAssociates(a, [], []);
      ConcatAssociates(Flatten(a), [], []);
    } else {
      var front, last := b[..|b| - 1], b[|b| - 1];
      AppendedAll(a, front);
      assert (a + b)[..|a + b| - 1] == a + front;
      ConcatAssociates(Flatten(a), Flatten(front), last);
    }
  }
}
