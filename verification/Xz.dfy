/**
 The size of an .xz stream, computed backwards from its footer: the backward size leads to the index,
 whose records give the sizes of the blocks.  Layout per version 1.0.4 of the .xz file format.
 */
module Xz {
  import opened Bytes
  import opened Files

  const BACKWARD_SIZE_LEN := 4
  const MAX_MBI_LEN := 9
  const XZ_PADDING := 4
  const CRC32_LEN := 4
  const STREAM_HEADER_LEN := 12
  const STREAM_FOOTER_LEN := 12

  // ---- what the reader computes ----

  datatype Mbi = Mbi(size: nat, value: nat, next: nat)

  /** Nine bytes are read and stepped back over, then the bytes of the integer are skipped. */
  function MbiAt(data: seq<byte>, pos: nat): (r: Result<Mbi>)
    requires pos <= |data|
    ensures r.Ok? ==> r.value.next <= |data|
  {
    var bytes := Slice(data, pos, MAX_MBI_LEN);
    var back := pos + |bytes| - MAX_MBI_LEN;
    if back < 0 then Err(SeekError)
    else match MultibyteInteger(bytes)
      case None => Err(InvalidInputFormat)
      case Some((size, value)) => if back + size <= |data| then Ok(Mbi(size, value, back + size)) else Err(SeekError)
  }

  datatype Sizes = Sizes(index: nat, blocks: nat)

  /** The unpadded size of a record and the bytes taken by both of its sizes. */
  function RecordAt(data: seq<byte>, pos: nat): (r: Result<Mbi>)
    requires pos <= |data|
    ensures r.Ok? ==> r.value.next <= |data|
  {
    match MbiAt(data, pos)
    case Err(e) => Err(e)
    case Ok(unpadded) =>
      match MbiAt(data, unpadded.next)
      case Err(e) => Err(e)
      case Ok(uncompressed) => Ok(Mbi(unpadded.size + uncompressed.size, unpadded.value, uncompressed.next))
  }

  /** Adds up the records of the index. */
  function Records(data: seq<byte>, pos: nat, count: nat, s: Sizes): Result<Sizes>
    requires pos <= |data|
    decreases count
  {
    if count == 0 then Ok(s)
    else match RecordAt(data, pos)
      case Err(e) => Err(e)
      case Ok(mbi) =>
        Records(data, mbi.next, count - 1, Sizes(s.index + mbi.size, s.blocks + RoundUp(mbi.value, XZ_PADDING)))
  }

  /** The parts add up; the sum is rounded up to a multiple of four. */
  function SizeFrom(sizes: Result<Sizes>): Result<nat> {
    match sizes
    case Err(e) => Err(e)
    case Ok(s) => Ok(RoundUp(STREAM_HEADER_LEN + s.blocks + s.index + CRC32_LEN + STREAM_FOOTER_LEN, XZ_PADDING))
  }

  /** The size of the stream whose index starts at a position. */
  function IndexAt(data: seq<byte>, start: nat): Result<nat>
    requires start < |data|
  {
    if data[start] != 0 then Err(InvalidInputFormat)
    else match MbiAt(data, start + 1)
      case Err(e) => Err(e)
      case Ok(count) =>
        SizeFrom(Records(data, count.next, count.value, Sizes(1 + count.size, 0)))
  }

  function StreamSize(data: seq<byte>, footer: int): Result<nat> {
    if !(0 <= footer - BACKWARD_SIZE_LEN <= |data|) then Err(SeekError)
    else if footer > |data| then Err(InvalidInputFormat)
    else
      var backward := 4 * (LittleEndian(data[footer - BACKWARD_SIZE_LEN..footer]) + 1);
      var start := footer - CRC32_LEN - BACKWARD_SIZE_LEN - backward;
      if start < 0 then Err(InvalidInputFormat) else IndexAt(data, start)
  }

  // ---- the reader itself ----

  method ReadMultibyteInt(file: File) returns (r: Result<(nat, nat)>)
    requires file.Valid()
    modifies file
    ensures file.Valid()
    ensures match MbiAt(file.data, old(file.pos))
            case Err(e) => r == Err(e)
            case Ok(mbi) => r == Ok((mbi.size, mbi.value)) && file.pos == mbi.next
  {
    var bytes := file.Read(MAX_MBI_LEN);
    var ok := file.Seek(file.pos - MAX_MBI_LEN);
    if !ok {
      return Err(SeekError);
    }
    r := DecodeMultibyteInteger(bytes);
    if r.Err? {
      return;
    }
    ok := file.Seek(file.pos + r.value.0);
    if !ok {
      return Err(SeekError);
    }
  }

  method GetStreamSize(footerOffset: int, file: File) returns (r: Result<nat>)
    requires file.Valid()
    modifies file
    ensures file.Valid() && r == StreamSize(file.data, footerOffset)
  {
    hide IndexAt, LittleEndian;
    var ok := file.Seek(footerOffset - BACKWARD_SIZE_LEN);
    if !ok {
      return Err(SeekError);
    }
    var bytes := file.Read(BACKWARD_SIZE_LEN);
    if |bytes| != BACKWARD_SIZE_LEN {
      return Err(InvalidInputFormat);
    }
    assert bytes == file.data[footerOffset - BACKWARD_SIZE_LEN..footerOffset];
    var backward := (LittleEndian(bytes) + 1) * 4;
    if backward > footerOffset - CRC32_LEN - BACKWARD_SIZE_LEN {
      return Err(InvalidInputFormat);
    }
    ok := file.Seek(file.pos - CRC32_LEN - BACKWARD_SIZE_LEN);
    ok := file.Seek(file.pos - backward);
    r := ReadIndex(file);
  }

  method ReadIndex(file: File) returns (r: Result<nat>)
    requires file.Valid() && file.pos < |file.data|
    modifies file
    ensures file.Valid() && r == IndexAt(file.data, old(file.pos))
  {
    hide RecordAt;
    var indicator := file.Read(1);
    if indicator[0] != 0 {
      return Err(InvalidInputFormat);
    }
    var number := ReadMultibyteInt(file);
    if number.Err? {
      return Err(number.error);
    }
    r := ReadRecords(file, number.value.1, 1 + number.value.0);
  }

  method ReadRecord(file: File) returns (r: Result<(nat, nat)>)
    requires file.Valid()
    modifies file
    ensures file.Valid()
    ensures match RecordAt(file.data, old(file.pos))
            case Err(e) => r == Err(e)
            case Ok(mbi) => r == Ok((mbi.size, mbi.value)) && file.pos == mbi.next
  {
    var unpadded := ReadMultibyteInt(file);
    if unpadded.Err? {
      return Err(unpadded.error);
    }
    var uncompressed := ReadMultibyteInt(file);
    if uncompressed.Err? {
      return Err(uncompressed.error);
    }
    return Ok((unpadded.value.0 + uncompressed.value.0, unpadded.value.1));
  }

  method ReadRecords(file: File, count: nat, indexStart: nat) returns (r: Result<nat>)
    requires file.Valid()
    modifies file
    ensures file.Valid() && r == SizeFrom(Records(file.data, old(file.pos), count, Sizes(indexStart, 0)))
  {
    hide RecordAt;
    var indexSize, blocksSize := indexStart, 0;
    ghost var all := Records(file.data, file.pos, count, Sizes(indexSize, blocksSize));
    for k := 0 to count
      invariant file.Valid() && indexSize >= 0 && blocksSize >= 0
      invariant all == Records(file.data, file.pos, count - k, Sizes(indexSize, blocksSize))
    {
      var record := ReadRecord(file);
      if record.Err? {
        return Err(record.error);
      }
      indexSize := indexSize + record.value.0;
      blocksSize := blocksSize + RoundUp(record.value.1, XZ_PADDING);
    }
    indexSize := indexSize + CRC32_LEN;
    return Ok(RoundUp(STREAM_HEADER_LEN + blocksSize + indexSize + STREAM_FOOTER_LEN, XZ_PADDING));
  }

  // ---- the layout of a stream ----

  datatype Record = Record(unpadded: nat, uncompressed: nat)

  const MAX_MBI := 0x8000_0000_0000_0000

  predicate ValidRecords(rs: seq<Record>) {
    |rs| < MAX_MBI && forall k :: 0 <= k < |rs| ==> rs[k].unpadded < MAX_MBI && rs[k].uncompressed < MAX_MBI
  }

  function RecordBytes(rs: seq<Record>): seq<byte> {
    if rs == [] then []
    else EncodeMultibyte(rs[0].unpadded) + EncodeMultibyte(rs[0].uncompressed) + RecordBytes(rs[1..])
  }

  /** The length of the blocks the records describe, each padded to a multiple of four. */
  function BlocksSize(rs: seq<Record>): nat {
    if rs == [] then 0 else RoundUp(rs[0].unpadded, 4) + BlocksSize(rs[1..])
  }

  /** Section 4: indicator, number of records and the records. */
  function IndexFields(rs: seq<Record>): seq<byte> {
    [0] + EncodeMultibyte(|rs|) + RecordBytes(rs)
  }

  /** The index with its padding and its checksum. */
  function Index(rs: seq<Record>, crc: seq<byte>): seq<byte> {
    IndexFields(rs) + Zeros(Padding(|IndexFields(rs)|, 4)) + crc
  }

  function Bytes32(v: nat): seq<byte>
    requires v < 0x1_0000_0000
  {
    [v % 0x100, v / 0x100 % 0x100, v / 0x1_0000 % 0x100, v / 0x100_0000]
  }

  /** Section 2.1.2.2: a size in units of four bytes, less one. */
  function BackwardSize(index: seq<byte>): seq<byte>
    requires 4 <= |index| <= 0x4_0000_0000
  {
    Bytes32(|index| / 4 - 1)
  }

  datatype Stream = Stream(header: seq<byte>, blocks: seq<byte>, records: seq<Record>, indexCrc: seq<byte>,
                           footerCrc: seq<byte>, flags: seq<byte>, magic: seq<byte>)

  /** The parts have the lengths the format gives them; their contents are left open. */
  predicate WellFormed(s: Stream) {
    && |s.header| == 12 && ValidRecords(s.records) && |s.blocks| == BlocksSize(s.records)
    && |s.indexCrc| == 4 && |s.footerCrc| == 4 && |s.flags| == 2 && |s.magic| == 2
    && |Index(s.records, s.indexCrc)| <= 0x4_0000_0000
  }

  function StreamBytes(s: Stream): seq<byte>
    requires WellFormed(s)
  {
    s.header + s.blocks + Index(s.records, s.indexCrc) + s.footerCrc
    + BackwardSize(Index(s.records, s.indexCrc)) + s.flags + s.magic
  }

  // ---- the computed size is the true one ----

  lemma MbiFits()
    ensures ShiftGroups(1, 9) == MAX_MBI
  {
    assert ShiftGroups(1, 1) == 0x80;
    assert ShiftGroups(1, 2) == 0x4000;
    assert ShiftGroups(1, 3) == 0x20_0000;
    assert ShiftGroups(1, 4) == 0x1000_0000;
    assert ShiftGroups(1, 5) == 0x8_0000_0000;
    assert ShiftGroups(1, 6) == 0x400_0000_0000;
    assert ShiftGroups(1, 7) == 0x2_0000_0000_0000;
    assert ShiftGroups(1, 8) == 0x100_0000_0000_0000;
  }

  /** What stands at a position is `a`, and then `b`. */
  ghost predicate At(data: seq<byte>, pos: nat, a: seq<byte>, b: seq<byte>) {
    pos <= |data| && data[pos..] == a + b
  }

  lemma Skip(data: seq<byte>, pos: nat, a: seq<byte>, b: seq<byte>, c: seq<byte>)
    requires At(data, pos, a, b + c)
    ensures At(data, pos + |a|, b, c)
  {
    assert |data| - pos == |a| + |b + c|;
    assert data[pos + |a|..] == data[pos..][|a|..];
  }

  lemma FirstNine(data: seq<byte>, pos: nat, a: seq<byte>, tail: seq<byte>)
    requires At(data, pos, a, tail) && |a| <= 9 && |a| + |tail| >= 9
    ensures Slice(data, pos, 9) == a + tail[..9 - |a|]
  {
    assert |data| - pos == |a| + |tail|;
    assert Slice(data, pos, 9) == data[pos..][..9];
    assert (a + tail)[..9] == a + tail[..9 - |a|];
  }

  /** An integer with enough bytes behind it is read as it was written. */
  lemma ReadsMbi(data: seq<byte>, pos: nat, v: nat, tail: seq<byte>)
    requires At(data, pos, EncodeMultibyte(v), tail) && v < MAX_MBI && |EncodeMultibyte(v)| + |tail| >= 9
    ensures var n := |EncodeMultibyte(v)|; MbiAt(data, pos) == Ok(Mbi(n, v, pos + n))
  {
    var n := |EncodeMultibyte(v)|;
    assert |data[pos..]| == n + |tail|;
    MbiFits();
    MultibyteLength(v, 9);
    FirstNine(data, pos, EncodeMultibyte(v), tail);
    MultibyteRoundTrip(v, tail[..9 - n]);
  }

  lemma ReadsRecord(data: seq<byte>, pos: nat, r: Record, rest: seq<byte>)
    requires r.unpadded < MAX_MBI && r.uncompressed < MAX_MBI && |rest| >= 8
    requires At(data, pos, EncodeMultibyte(r.unpadded), EncodeMultibyte(r.uncompressed) + rest)
    ensures pos + |EncodeMultibyte(r.unpadded)| <= |data|
    ensures var n := |EncodeMultibyte(r.unpadded)| + |EncodeMultibyte(r.uncompressed)|;
            RecordAt(data, pos) == Ok(Mbi(n, r.unpadded, pos + n))
  {
    var a, b := EncodeMultibyte(r.unpadded), EncodeMultibyte(r.uncompressed);
    ReadsMbi(data, pos, r.unpadded, b + rest);
    Skip(data, pos, a, b, rest);
    ReadsMbi(data, pos + |a|, r.uncompressed, rest);
  }

  function RecordSize(r: Record): nat {
    |EncodeMultibyte(r.unpadded)| + |EncodeMultibyte(r.uncompressed)|
  }

  /** Three parts in a row stand one behind the other. */
  lemma SkipTwice(data: seq<byte>, pos: nat, a: seq<byte>, b: seq<byte>, c: seq<byte>, d: seq<byte>)
    requires At(data, pos, a + b + c, d)
    ensures At(data, pos, a, b + (c + d)) && At(data, pos + |a|, b, c + d) && At(data, pos + |a| + |b|, c, d)
  {
    Regroup(a, b, c, d);
    Skip(data, pos, a, b, c + d);
    Skip(data, pos + |a|, b, c, d);
  }

  lemma FirstRecord(data: seq<byte>, pos: nat, r: Record, rest: seq<byte>, tail: seq<byte>)
    requires At(data, pos, EncodeMultibyte(r.unpadded) + EncodeMultibyte(r.uncompressed) + rest, tail)
    requires r.unpadded < MAX_MBI && r.uncompressed < MAX_MBI && |tail| >= 8
    ensures RecordAt(data, pos) == Ok(Mbi(RecordSize(r), r.unpadded, pos + RecordSize(r)))
    ensures At(data, pos + RecordSize(r), rest, tail)
  {
    SkipTwice(data, pos, EncodeMultibyte(r.unpadded), EncodeMultibyte(r.uncompressed), rest, tail);
    ReadsRecord(data, pos, r, rest + tail);
  }

  lemma {:induction false} ReadsRecords(data: seq<byte>, pos: nat, rs: seq<Record>, tail: seq<byte>, s: Sizes)
    requires At(data, pos, RecordBytes(rs), tail) && ValidRecords(rs) && |tail| >= 8
    ensures Records(data, pos, |rs|, s) == Ok(Sizes(s.index + |RecordBytes(rs)|, s.blocks + BlocksSize(rs)))
    decreases |rs|, 1
  {
    if rs != [] {
      hide *;
      ReadsMore(data, pos, rs, tail, s);
    }
  }

  lemma {:induction false} ReadsMore(data: seq<byte>, pos: nat, rs: seq<Record>, tail: seq<byte>, s: Sizes)
    requires At(data, pos, RecordBytes(rs), tail) && ValidRecords(rs) && |tail| >= 8 && rs != []
    ensures Records(data, pos, |rs|, s) == Ok(Sizes(s.index + |RecordBytes(rs)|, s.blocks + BlocksSize(rs)))
    decreases |rs|, 0
  {
    hide Records, ValidRecords, MbiAt, RecordAt, RoundUp, BlocksSize, At, EncodeMultibyte;
    var n, v := RecordSize(rs[0]), rs[0].unpadded;
    var t := Sizes(s.index + n, s.blocks + RoundUp(v, XZ_PADDING));
    ValidTail(rs);
    FirstRecord(data, pos, rs[0], RecordBytes(rs[1..]), tail);
    ReadsRecords(data, pos + n, rs[1..], tail, t);
    OneMore(data, pos, rs, n, v, s, t);
  }

  lemma OneMore(data: seq<byte>, pos: nat, rs: seq<Record>, n: nat, v: nat, s: Sizes, t: Sizes)
    requires rs != [] && n == RecordSize(rs[0]) && v == rs[0].unpadded
    requires t == Sizes(s.index + n, s.blocks + RoundUp(v, XZ_PADDING))
    requires pos <= |data| && RecordAt(data, pos) == Ok(Mbi(n, v, pos + n))
    requires Records(data, pos + n, |rs[1..]|, t) ==
             Ok(Sizes(t.index + |RecordBytes(rs[1..])|, t.blocks + BlocksSize(rs[1..])))
    ensures Records(data, pos, |rs|, s) == Ok(Sizes(s.index + |RecordBytes(rs)|, s.blocks + BlocksSize(rs)))
  {
    hide MbiAt, RecordAt;
    RecordsStep(data, pos, |rs|, n, v, s);
    RecordsLength(rs);
  }

  lemma ValidTail(rs: seq<Record>)
    requires rs != [] && ValidRecords(rs)
    ensures ValidRecords(rs[1..]) && rs[0].unpadded < MAX_MBI && rs[0].uncompressed < MAX_MBI
  {
  }

  lemma RecordsLength(rs: seq<Record>)
    requires rs != []
    ensures |RecordBytes(rs)| == RecordSize(rs[0]) + |RecordBytes(rs[1..])|
  {
  }

  lemma RecordsStep(data: seq<byte>, pos: nat, count: nat, n: nat, v: nat, s: Sizes)
    requires pos <= |data| && count > 0 && RecordAt(data, pos) == Ok(Mbi(n, v, pos + n))
    ensures Records(data, pos, count, s) ==
            Records(data, pos + n, count - 1, Sizes(s.index + n, s.blocks + RoundUp(v, XZ_PADDING)))
  {
    hide RecordAt, RoundUp;
  }

  lemma Regroup(a: seq<byte>, b: seq<byte>, c: seq<byte>, d: seq<byte>)
    ensures a + b + c + d == a + (b + (c + d))
  {
  }

  lemma ReadsCount(data: seq<byte>, start: nat, rs: seq<Record>, tail: seq<byte>)
    requires start < |data| && At(data, start, IndexFields(rs), tail) && ValidRecords(rs) && |tail| >= 8
    ensures data[start] == 0
    ensures var n := |EncodeMultibyte(|rs|)|;
            && MbiAt(data, start + 1) == Ok(Mbi(n, |rs|, start + 1 + n))
            && At(data, start + 1 + n, RecordBytes(rs), tail)
  {
    var count, records := EncodeMultibyte(|rs|), RecordBytes(rs);
    SkipTwice(data, start, [0], count, records, tail);
    assert data[start] == data[start..][0];
    ReadsMbi(data, start + 1, |rs|, records + tail);
  }

  lemma ReadsIndex(data: seq<byte>, start: nat, rs: seq<Record>, tail: seq<byte>)
    requires start < |data| && At(data, start, IndexFields(rs), tail) && ValidRecords(rs) && |tail| >= 8
    ensures IndexAt(data, start) == SizeFrom(Ok(Sizes(|IndexFields(rs)|, BlocksSize(rs))))
  {
    hide *;
    var n := |EncodeMultibyte(|rs|)|;
    ReadsCount(data, start, rs, tail);
    ReadsRecords(data, start + 1 + n, rs, tail, Sizes(1 + n, 0));
    IndexStep(data, start, n, |rs|, Sizes(1 + n + |RecordBytes(rs)|, BlocksSize(rs)));
    IndexFieldsLength(rs);
  }

  lemma IndexFieldsLength(rs: seq<Record>)
    ensures |IndexFields(rs)| == 1 + |EncodeMultibyte(|rs|)| + |RecordBytes(rs)|
  {
  }

  lemma IndexStep(data: seq<byte>, start: nat, n: nat, count: nat, sizes: Sizes)
    requires start < |data| && data[start] == 0 && MbiAt(data, start + 1) == Ok(Mbi(n, count, start + 1 + n))
    requires Records(data, start + 1 + n, count, Sizes(1 + n, 0)) == Ok(sizes)
    ensures IndexAt(data, start) == SizeFrom(Ok(sizes))
  {
  }

  lemma {:induction false} BlocksAreAligned(rs: seq<Record>)
    ensures BlocksSize(rs) % 4 == 0
  {
    if rs != [] {
      RoundUpIsLeast(rs[0].unpadded, XZ_PADDING);
      BlocksAreAligned(rs[1..]);
    }
  }

  lemma RoundUpIs(x: nat, total: nat)
    requires total % 4 == 0 && x <= total < x + 4
    ensures RoundUp(x, 4) == total
  {
    RoundUpIsLeast(x, 4);
  }

  lemma LengthRoundTrip(v: nat)
    requires v < 0x1_0000_0000
    ensures LittleEndian(Bytes32(v)) == v
  {
    hide LittleEndian;
    var a, b := v / 0x100, v / 0x1_0000;
    FourBytes(v % 0x100, a % 0x100, b % 0x100, v / 0x100_0000);
    Digit(v);
    Digit(a);
    Digit(b);
    Quotients(v);
  }

  lemma Digit(v: nat)
    ensures v == v % 0x100 + 0x100 * (v / 0x100)
  {
  }

  lemma Quotients(v: nat)
    ensures v / 0x100 / 0x100 == v / 0x1_0000 && v / 0x1_0000 / 0x100 == v / 0x100_0000
  {
  }

  /** Padding does not matter to the sum: rounding it up gives the length of the whole stream. */
  lemma TotalSize(s: Stream)
    requires WellFormed(s)
    ensures |Index(s.records, s.indexCrc)| % 4 == 0
    ensures SizeFrom(Ok(Sizes(|IndexFields(s.records)|, BlocksSize(s.records)))) == Ok(|StreamBytes(s)|)
  {
    hide RoundUp, RecordBytes, EncodeMultibyte;
    var n := |IndexFields(s.records)|;
    RoundUpIsLeast(n, XZ_PADDING);
    BlocksAreAligned(s.records);
    RoundUpIs(STREAM_HEADER_LEN + BlocksSize(s.records) + n + CRC32_LEN + STREAM_FOOTER_LEN,
              STREAM_HEADER_LEN + BlocksSize(s.records) + RoundUp(n, XZ_PADDING) + CRC32_LEN + STREAM_FOOTER_LEN);
  }

  lemma IndexSplits(rs: seq<Record>, crc: seq<byte>, rest: seq<byte>)
    ensures Index(rs, crc) + rest == IndexFields(rs) + (Zeros(Padding(|IndexFields(rs)|, XZ_PADDING)) + (crc + rest))
  {
    Regroup(IndexFields(rs), Zeros(Padding(|IndexFields(rs)|, XZ_PADDING)), crc, rest);
  }

  /** The backward size leads from the footer to the start of the index. */
  lemma BackwardLeadsToIndex(data: seq<byte>, front: seq<byte>, index: seq<byte>, crc: seq<byte>, rest: seq<byte>)
    requires 4 <= |index| <= 0x4_0000_0000 && |index| % 4 == 0 && |crc| == 4
    requires data == front + (index + (crc + (BackwardSize(index) + rest)))
    ensures StreamSize(data, |front| + |index| + 8) == IndexAt(data, |front|)
    ensures At(data, |front|, index, crc + (BackwardSize(index) + rest))
  {
    hide IndexAt, LittleEndian;
    var footer := |front| + |index| + 8;
    LengthRoundTrip(|index| / 4 - 1);
    assert data[footer - 4..footer] == BackwardSize(index);
  }

  lemma IndexOfStream(data: seq<byte>, start: nat, index: seq<byte>, s: Stream, rest: seq<byte>)
    requires WellFormed(s) && index == Index(s.records, s.indexCrc)
    requires start < |data| && At(data, start, index, rest) && |rest| >= 8
    ensures IndexAt(data, start) == Ok(|StreamBytes(s)|)
  {
    TotalSize(s);
    IndexSplits(s.records, s.indexCrc, rest);
    ReadsIndex(data, start, s.records, Zeros(Padding(|IndexFields(s.records)|, XZ_PADDING)) + (s.indexCrc + rest));
  }

  /** For any stream laid out in this way, whatever precedes and follows it, its size is computed. */
  lemma StreamSizeIsTrue(prefix: seq<byte>, s: Stream, suffix: seq<byte>)
    requires WellFormed(s)
    ensures StreamSize(prefix + StreamBytes(s) + suffix, |prefix| + |StreamBytes(s)| - |s.flags| - |s.magic|) ==
            Ok(|StreamBytes(s)|)
  {
    hide *;
    var front, index := prefix + s.header + s.blocks, Index(s.records, s.indexCrc);
    IndexIsPadded(s);
    Arranged(prefix, s, suffix);
    EndOfStream(prefix + StreamBytes(s) + suffix, front, index, s, s.flags + s.magic + suffix);
    FooterOffset(prefix, s);
  }

  /** Where there is no index, or no room for one, nothing is found. */
  lemma NoIndexIsRefused(data: seq<byte>, footer: int)
    requires 4 <= footer <= |data|
    ensures var start := footer - 12 - 4 * LittleEndian(data[footer - 4..footer]);
            start < 0 || data[start] != 0 ==> StreamSize(data, footer) == Err(InvalidInputFormat)
  {
    hide LittleEndian, Records;
  }

  lemma IndexIsPadded(s: Stream)
    requires WellFormed(s)
    ensures 4 <= |Index(s.records, s.indexCrc)| <= 0x4_0000_0000 && |Index(s.records, s.indexCrc)| % 4 == 0
  {
    hide IndexFields, Padding, RoundUp, BlocksSize;
    TotalSize(s);
  }

  lemma FooterOffset(prefix: seq<byte>, s: Stream)
    requires WellFormed(s)
    ensures |prefix| + |StreamBytes(s)| - |s.flags| - |s.magic| ==
            |prefix + s.header + s.blocks| + |Index(s.records, s.indexCrc)| + 8
  {
    hide Index, BlocksSize;
    IndexIsPadded(s);
  }

  lemma EndOfStream(data: seq<byte>, front: seq<byte>, index: seq<byte>, s: Stream, rest: seq<byte>)
    requires WellFormed(s) && index == Index(s.records, s.indexCrc) && 4 <= |index| <= 0x4_0000_0000 && |index| % 4 == 0
    requires data == front + (index + (s.footerCrc + (BackwardSize(index) + rest)))
    ensures StreamSize(data, |front| + |index| + 8) == Ok(|StreamBytes(s)|)
  {
    BackwardLeadsToIndex(data, front, index, s.footerCrc, rest);
    IndexOfStream(data, |front|, index, s, s.footerCrc + (BackwardSize(index) + rest));
  }

  lemma Arranged(prefix: seq<byte>, s: Stream, suffix: seq<byte>)
    requires WellFormed(s)
    ensures prefix + StreamBytes(s) + suffix ==
            prefix + s.header + s.blocks
            + (Index(s.records, s.indexCrc)
               + (s.footerCrc + (BackwardSize(Index(s.records, s.indexCrc)) + (s.flags + s.magic + suffix))))
  {
    Rearranged(prefix, s.header, s.blocks, Index(s.records, s.indexCrc), s.footerCrc,
               BackwardSize(Index(s.records, s.indexCrc)), s.flags, s.magic, suffix);
  }

  lemma Rearranged(p: seq<byte>, a: seq<byte>, b: seq<byte>, c: seq<byte>, d: seq<byte>, e: seq<byte>, f: seq<byte>,
                   g: seq<byte>, q: seq<byte>)
    ensures p + (a + b + c + d + e + f + g) + q == p + a + b + (c + (d + (e + (f + g + q))))
  {
  }
}
