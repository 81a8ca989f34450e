/** The parser object: it collects entries while it moves through the file. */
module CpioParser {
  import opened Bytes
  import opened Files
  import opened Sums
  import opened Cpio

  class CPIOParserBase {
    const file: File
    const startOffset: nat
    const format: Format
    var endOffset: int
    var entries: seq<CPIOEntry>

    constructor (file: File, startOffset: nat, format: Format)
      ensures this.file == file && this.startOffset == startOffset && this.format == format
      ensures entries == [] && endOffset == -1
    {
      this.file, this.startOffset, this.format := file, startOffset, format;
      endOffset, entries := -1, [];
    }

    method Parse() returns (r: Result<()>)
      requires file.Valid()
      modifies this, file
      ensures file.Valid()
      ensures match Cpio.Parse(format, file.data, startOffset)
              case Err(e) => r == Err(e)
              case Ok(a) => r == Ok(()) && entries == old(entries) + a.entries && endOffset == a.end
    {
      hide ParseAt, PaddedEnd;
      EndIsBehind(format, file.data, startOffset);
      var currentOffset := startOffset;
      ghost var all := Entries(format, file.data, startOffset);
      ghost var found: seq<CPIOEntry> := [];
      NothingFound(all, entries);
      while true
        invariant file.Valid() && entries == old(entries) + found
        invariant all == Before(found, Entries(format, file.data, currentOffset))
        decreases |file.data| - currentOffset
      {
        EntriesAdvance(format, file.data, currentOffset);
        var p := ParseEntry(currentOffset);
        if p.Err? {
          return Err(p.error);
        }
        match p.value
        case NoHeader => break;
        case Trailer(next) =>
          currentOffset := next;
          break;
        case Member(more, next) =>
          FoundMore(old(entries), found, more, Entries(format, file.data, next));
          entries := entries + more;
          found := found + more;
          currentOffset := next;
      }
      ConcatAssociates(found, [], []);
      var end := PadFile(currentOffset);
      if end.Err? {
        return Err(end.error);
      }
      endOffset := end.value;
      if startOffset == endOffset {
        return Err(InvalidInputFormat);
      }
      return Ok(());
    }

    /** What stands at an offset: nothing, the trailer, or an entry. */
    method ParseEntry(pos: nat) returns (p: Result<Parsed>)
      requires file.Valid()
      modifies file
      ensures file.Valid() && p == ParseAt(format, file.data, pos)
    {
      hide NameAt, EntryFrom, RoundUp;
      var ok := file.Seek(pos);
      if !ok {
        return Err(SeekError);
      }
      var header := file.Read(HEADER_LEN);
      if |header| != HEADER_LEN {
        return Ok(NoHeader);
      }
      var fileSize := Number(format, header, FileSize);
      if fileSize.Err? {
        return Err(fileSize.error);
      }
      var nameSize := Number(format, header, NameSize);
      if nameSize.Err? {
        return Err(nameSize.error);
      }
      if nameSize.value > MAX_LINUX_PATH_LENGTH || nameSize.value <= 0 || fileSize.value < 0 {
        return Err(InvalidInputFormat);
      }
      var body := pos + RoundUp(|header| + nameSize.value, PAD_ALIGN);
      var name := ReadName(nameSize.value);
      if name.Err? {
        return Err(name.error);
      }
      var next := body + RoundUp(fileSize.value, PAD_ALIGN);
      if name.value == TRAILER_NAME {
        return Ok(Trailer(next));
      }
      var found := MakeEntry(header, name.value, body, fileSize.value);
      if found.Err? {
        return Err(found.error);
      }
      return Ok(Member(found.value, next));
    }

    /** The name that follows, which has to end in a zero. */
    method ReadName(size: nat) returns (r: Result<seq<byte>>)
      requires file.Valid()
      modifies file
      ensures file.Valid() && r == NameAt(format, file.data, old(file.pos), size)
    {
      var bytes := file.Read(size);
      if bytes == [] || bytes[|bytes| - 1] != 0 {
        return Err(InvalidInputFormat);
      }
      var name := StripNulls(bytes);
      if !format.utf8(name) {
        return Err(InvalidInputFormat);
      }
      return Ok(name);
    }

    method MakeEntry(header: seq<byte>, name: seq<byte>, pos: nat, size: nat) returns (r: Result<seq<CPIOEntry>>)
      requires file.Valid() && |header| == HEADER_LEN
      modifies file
      ensures file.Valid() && r == EntryFrom(format, file.data, header, name, pos, size)
    {
      hide Number, Device, ChecksumIsValid, ModeIsValid;
      var mode := Number(format, header, Mode);
      if mode.Err? {
        return Err(mode.error);
      }
      if !ModeIsValid(mode.value) {
        return Err(InvalidInputFormat);
      }
      var valid := ValidChecksum(header, pos, size);
      if valid.Raised? {
        return Err(valid.error);
      }
      if valid.Wrong? {
        return Ok([]);
      }
      var dev := Device(format, header, DevMaj, DevMin);
      if dev.Err? {
        return Err(dev.error);
      }
      var rdev := Device(format, header, RDevMaj, RDevMin);
      if rdev.Err? {
        return Err(rdev.error);
      }
      return Ok([CPIOEntry(pos, size, dev.value, mode.value, rdev.value, name)]);
    }

    /** The sum of all bytes of the contents, block by block, modulo two to the 32nd. */
    method ValidChecksum(header: seq<byte>, pos: nat, size: nat) returns (r: Check)
      requires file.Valid() && |header| == HEADER_LEN
      modifies file
      ensures file.Valid() && r == ChecksumIsValid(format, file.data, header, pos, size)
    {
      hide Number, ByteSum, Flatten;
      if !format.crc {
        return Right;
      }
      var expected := Number(format, header, Chksum);
      if expected.Err? {
        return Raised(expected.error);
      }
      var blocks := IterateFile(file, pos, size, DEFAULT_BUFSIZE);
      if blocks.Err? {
        return Raised(blocks.error);
      }
      var sum: nat := 0;
      SumOfNone();
      for k := 0 to |blocks.value|
        invariant file.Valid() && sum == ByteSum(Flatten(blocks.value[..k]))
      {
        SumOfMore(blocks.value, k);
        sum := sum + ByteSum(blocks.value[k]);
      }
      assert blocks.value[..|blocks.value|] == blocks.value;
      if expected.value != sum % 0x1_0000_0000 {
        return Wrong;
      }
      return Right;
    }

    /** Archives can be padded with zeros to a multiple of 512 bytes. */
    method PadFile(end: nat) returns (r: Result<nat>)
      requires file.Valid() && startOffset <= end
      modifies file
      ensures file.Valid() && r == PaddedEnd(file.data, startOffset, end)
    {
      hide RoundUp;
      var ok := file.Seek(end);
      if !ok {
        return Err(SeekError);
      }
      RoundUpIsLeast(end - startOffset, FILE_PAD_ALIGN);
      var padded := startOffset + RoundUp(end - startOffset, FILE_PAD_ALIGN);
      var padding := file.Read(padded - end);
      AllZeroIs(padding, padded - end);
      return Ok(if padding == Zeros(padded - end) then padded else end);
    }
  }

  const DEFAULT_BUFSIZE := 0x1_0000

  lemma {:induction false} AllZeroIs(s: seq<byte>, n: nat)
    ensures s == Zeros(n) <==> |s| == n && AllZero(s)
    decreases |s|
  {
    if s != [] && n > 0 {
      AllZeroIs(s[1..], n - 1);
      assert Zeros(n)[1..] == Zeros(n - 1);
      assert [s[0]] + s[1..] == s;
      assert [0] + Zeros(n - 1) == Zeros(n);
    }
  }

  lemma SumOfNone()
    ensures ByteSum(Flatten([])) == 0
  {
  }

  lemma SumOfMore(blocks: seq<seq<byte>>, k: nat)
    requires k < |blocks|
    ensures ByteSum(Flatten(blocks[..k + 1])) == ByteSum(Flatten(blocks[..k])) + ByteSum(blocks[k])
  {
    assert blocks[..k + 1][..k] == blocks[..k];
    TotalConcat(Value, Flatten(blocks[..k]), blocks[k]);
  }

  function Before(found: seq<CPIOEntry>, rest: Result<Archive>): Result<Archive> {
    match rest
    case Err(e) => Err(e)
    case Ok(a) => Ok(Archive(found + a.entries, a.end))
  }

  lemma NothingFound(all: Result<Archive>, entries: seq<CPIOEntry>)
    ensures Before([], all) == all && entries + [] == entries
  {
    if all.Ok? {
      ConcatAssociates(all.value.entries, [], []);
    }
    ConcatAssociates(entries, [], []);
  }

  lemma FoundMore(entries: seq<CPIOEntry>, found: seq<CPIOEntry>, more: seq<CPIOEntry>, rest: Result<Archive>)
    ensures entries + found + more == entries + (found + more)
    ensures Before(found, Before(more, rest)) == Before(found + more, rest)
  {
    ConcatAssociates(entries, found, more);
    if rest.Ok? {
      ConcatAssociates(found, more, rest.value.entries);
    }
  }
}
