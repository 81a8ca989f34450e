/**
 CPIO archives with new ASCII headers: a header of hexadecimal fields, a name, and contents, each padded to
 four bytes, up to an entry with the trailer's name.  How Python reads a number, and what it takes for UTF-8,
 are parameters.
 */
module Cpio {
  import opened Bytes
  import opened Files
  import opened Sums

  const HEADER_LEN := 110
  const PAD_ALIGN := 4
  const FILE_PAD_ALIGN := 512
  const MAX_LINUX_PATH_LENGTH := 0x1000

  /** TRAILER!!! */
  const TRAILER_NAME: seq<byte> := [0x54, 0x52, 0x41, 0x49, 0x4C, 0x45, 0x52, 0x21, 0x21, 0x21]

  /** With `crc` set, entries whose checksum is wrong are passed over. */
  datatype Format = Format(crc: bool, number: seq<byte> -> Option<int>, utf8: seq<byte> -> bool)

  datatype CPIOEntry = CPIOEntry(
    startOffset: nat, size: nat, dev: (int, int), mode: int, rdev: (int, int), path: seq<byte>)

  // ---- the header ----

  datatype Field = Ino | Mode | Uid | Gid | NLink | MTime | FileSize
                 | DevMaj | DevMin | RDevMaj | RDevMin | NameSize | Chksum

  /** The fields of eight characters follow the six of the magic number. */
  function Place(f: Field): nat {
    match f
    case Ino => 6
    case Mode => 14
    case Uid => 22
    case Gid => 30
    case NLink => 38
    case MTime => 46
    case FileSize => 54
    case DevMaj => 62
    case DevMin => 70
    case RDevMaj => 78
    case RDevMin => 86
    case NameSize => 94
    case Chksum => 102
  }

  function FieldOf(header: seq<byte>, f: Field): seq<byte>
    requires |header| == HEADER_LEN
  {
    header[Place(f)..Place(f) + 8]
  }

  function Number(t: Format, header: seq<byte>, f: Field): Result<int>
    requires |header| == HEADER_LEN
  {
    match t.number(FieldOf(header, f))
    case None => Err(InvalidInputFormat)
    case Some(n) => Ok(n)
  }

  /** The bits of the file type and the sticky bits have one of the known values, in units of 4096 and 512. */
  predicate ModeIsValid(mode: int) {
    mode / 0x1000 % 64 in {6, 2, 4, 1, 12, 10, 9, 8} && mode / 0x200 % 8 in {0, 4, 2, 1, 6}
  }

  function StripNulls(name: seq<byte>): seq<byte> {
    if name == [] || name[|name| - 1] != 0 then name else StripNulls(name[..|name| - 1])
  }

  function Value(b: byte): nat {
    b
  }

  function ByteSum(data: seq<byte>): nat {
    Total(Value, data)
  }

  // ---- one entry ----

  datatype Parsed = NoHeader | Trailer(next: nat) | Member(entries: seq<CPIOEntry>, next: nat)

  /** The name, without its padding, read from behind the header. */
  function NameAt(t: Format, data: seq<byte>, pos: nat, size: nat): Result<seq<byte>>
    requires pos <= |data|
  {
    var bytes := Slice(data, pos, size);
    if bytes == [] || bytes[|bytes| - 1] != 0 || !t.utf8(StripNulls(bytes)) then Err(InvalidInputFormat)
    else Ok(StripNulls(bytes))
  }

  datatype Check = Right | Wrong | Raised(error: Error)

  function ChecksumIsValid(t: Format, data: seq<byte>, header: seq<byte>, pos: nat, size: nat): Check
    requires |header| == HEADER_LEN
  {
    if !t.crc then Right
    else
      match Number(t, header, Chksum)
      case Err(e) => Raised(e)
      case Ok(sum) =>
        if pos > |data| then Raised(SeekError)
        else if sum == ByteSum(Slice(data, pos, size)) % 0x1_0000_0000 then Right
        else Wrong
  }

  function Device(t: Format, header: seq<byte>, major: Field, minor: Field): Result<(int, int)>
    requires |header| == HEADER_LEN
  {
    match Number(t, header, major)
    case Err(e) => Err(e)
    case Ok(a) => match Number(t, header, minor) case Err(e) => Err(e) case Ok(b) => Ok((a, b))
  }

  /** The entry with the given name and place; none if its checksum is wrong. */
  function EntryFrom(t: Format, data: seq<byte>, header: seq<byte>, name: seq<byte>, pos: nat, size: nat)
    : Result<seq<CPIOEntry>>
    requires |header| == HEADER_LEN
  {
    match Number(t, header, Mode)
    case Err(e) => Err(e)
    case Ok(mode) =>
      if !ModeIsValid(mode) then Err(InvalidInputFormat)
      else
        match ChecksumIsValid(t, data, header, pos, size)
        case Raised(e) => Err(e)
        case Wrong => Ok([])
        case Right =>
          match Device(t, header, DevMaj, DevMin)
          case Err(e) => Err(e)
          case Ok(dev) =>
            match Device(t, header, RDevMaj, RDevMin)
            case Err(e) => Err(e)
            case Ok(rdev) => Ok([CPIOEntry(pos, size, dev, mode, rdev, name)])
  }

  /** What stands at an offset. */
  function ParseAt(t: Format, data: seq<byte>, pos: nat): Result<Parsed> {
    if pos > |data| then Err(SeekError)
    else if pos + HEADER_LEN > |data| then Ok(NoHeader)
    else
      var header := data[pos..pos + HEADER_LEN];
      match Number(t, header, FileSize)
      case Err(e) => Err(e)
      case Ok(fileSize) =>
        match Number(t, header, NameSize)
        case Err(e) => Err(e)
        case Ok(nameSize) =>
          if nameSize > MAX_LINUX_PATH_LENGTH || nameSize <= 0 || fileSize < 0 then Err(InvalidInputFormat)
          else ParseNamed(t, data, pos, header, fileSize, nameSize)
  }

  function ParseNamed(t: Format, data: seq<byte>, pos: nat, header: seq<byte>, fileSize: nat, nameSize: nat)
    : Result<Parsed>
    requires |header| == HEADER_LEN && pos + HEADER_LEN <= |data|
  {
    var body := pos + RoundUp(HEADER_LEN + nameSize, PAD_ALIGN);
    var next := body + RoundUp(fileSize, PAD_ALIGN);
    match NameAt(t, data, pos + HEADER_LEN, nameSize)
    case Err(e) => Err(e)
    case Ok(name) =>
      if name == TRAILER_NAME then Ok(Trailer(next))
      else
        match EntryFrom(t, data, header, name, body, fileSize)
        case Err(e) => Err(e)
        case Ok(entries) => Ok(Member(entries, next))
  }

  // ---- the archive ----

  datatype Archive = Archive(entries: seq<CPIOEntry>, end: nat)

  lemma EntriesAdvance(t: Format, data: seq<byte>, pos: nat)
    ensures var r := ParseAt(t, data, pos);
            r.Ok? && !r.value.NoHeader? ==> r.value.next >= pos + HEADER_LEN && pos < |data|
  {
    hide Number, NameAt, EntryFrom, RoundUp;
    if pos + HEADER_LEN <= |data| {
      var size := Number(t, data[pos..pos + HEADER_LEN], NameSize);
      if size.Ok? && size.value > 0 {
        RoundUpIsLeast(HEADER_LEN + size.value, PAD_ALIGN);
      }
    }
  }

  /** The entries from an offset on, and where the last of them ends. */
  function Entries(t: Format, data: seq<byte>, pos: nat): Result<Archive>
    decreases |data| - pos
  {
    EntriesAdvance(t, data, pos);
    match ParseAt(t, data, pos)
    case Err(e) => Err(e)
    case Ok(NoHeader) => Ok(Archive([], pos))
    case Ok(Trailer(next)) => Ok(Archive([], next))
    case Ok(Member(entries, next)) =>
      match Entries(t, data, next)
      case Err(e) => Err(e)
      case Ok(rest) => Ok(Archive(entries + rest.entries, rest.end))
  }

  predicate AllZero(s: seq<byte>) {
    s == [] || (s[0] == 0 && AllZero(s[1..]))
  }

  /** A multiple of 512 bytes from the start, if there is nothing but zeros up to there. */
  function PaddedEnd(data: seq<byte>, start: nat, end: nat): Result<nat>
    requires start <= end
  {
    if end > |data| then Err(SeekError)
    else
      RoundUpIsLeast(end - start, FILE_PAD_ALIGN);
      var padded := start + RoundUp(end - start, FILE_PAD_ALIGN);
      Ok(if padded <= |data| && AllZero(data[end..padded]) then padded else end)
  }

  lemma {:induction false} EndIsBehind(t: Format, data: seq<byte>, pos: nat)
    ensures Entries(t, data, pos).Ok? ==> Entries(t, data, pos).value.end >= pos
    decreases |data| - pos
  {
    hide ParseAt;
    EntriesAdvance(t, data, pos);
    var r := ParseAt(t, data, pos);
    if r.Ok? && r.value.Member? {
      EndIsBehind(t, data, r.value.next);
    }
  }

  function Parse(t: Format, data: seq<byte>, start: nat): Result<Archive> {
    EndIsBehind(t, data, start);
    match Entries(t, data, start)
    case Err(e) => Err(e)
    case Ok(a) =>
      match PaddedEnd(data, start, a.end)
      case Err(e) => Err(e)
      case Ok(end) => if end == start then Err(InvalidInputFormat) else Ok(Archive(a.entries, end))
  }

  // ---- a writer ----

  /** A member of an archive: its name and the byte that closes it, its contents, and the fields that are free. */
  datatype Source = Source(name: seq<byte>, closing: byte, content: seq<byte>, field: Field -> nat)

  function HexChar(n: nat): byte
    requires n < 16
  {
    if n < 10 then 0x30 + n else 0x57 + n
  }

  /** A number in `n` hexadecimal digits. */
  function Hex(v: nat, n: nat): (s: seq<byte>)
    ensures |s| == n
  {
    if n == 0 then [] else Hex(v / 16, n - 1) + [HexChar(v % 16)]
  }

  function HexDigit(b: byte): Option<nat> {
    if 0x30 <= b <= 0x39 then Some(b - 0x30)
    else if 0x61 <= b <= 0x66 then Some(b - 0x57)
    else if 0x41 <= b <= 0x46 then Some(b - 0x37)
    else None
  }

  predicate AllHex(s: seq<byte>) {
    s == [] || (AllHex(s[..|s| - 1]) && HexDigit(s[|s| - 1]).Some?)
  }

  function HexNumber(s: seq<byte>): nat
    requires AllHex(s)
  {
    if s == [] then 0 else 16 * HexNumber(s[..|s| - 1]) + HexDigit(s[|s| - 1]).value
  }

  /** The program reads fields of eight hexadecimal digits as what they denote. */
  ghost predicate ReadsHex(t: Format) {
    forall s :: |s| == 8 && AllHex(s) ==> t.number(s) == Some(HexNumber(s))
  }

  lemma HexCharDigit(n: nat)
    requires n < 16
    ensures HexDigit(HexChar(n)) == Some(n)
  {
  }

  function Power16(n: nat): nat {
    if n == 0 then 1 else 16 * Power16(n - 1)
  }

  lemma {:induction false} HexRoundTrip(v: nat, n: nat)
    requires v < Power16(n)
    ensures AllHex(Hex(v, n)) && HexNumber(Hex(v, n)) == v
    decreases n
  {
    if n > 0 {
      hide HexDigit, HexChar;
      HexRoundTrip(v / 16, n - 1);
      HexCharDigit(v % 16);
      assert Hex(v, n)[..n - 1] == Hex(v / 16, n - 1);
    }
  }

  lemma EightDigits()
    ensures Power16(8) == 0x1_0000_0000
  {
    assert Power16(4) == 0x1_0000;
  }

  function FieldValue(t: Format, m: Source, f: Field): nat {
    match f
    case FileSize => |m.content|
    case NameSize => |m.name| + 1
    case _ => m.field(f)
  }

  /** A mode without its permissions: known file types and combinations of sticky bits, in octal 060000 and so on. */
  predicate KnownMode(mode: nat) {
    var low := mode % 262144;
    && low - low % 4096 in {24576, 8192, 16384, 4096, 49152, 40960, 36864, 32768}
    && low % 4096 - low % 512 in {0, 2048, 1024, 512, 3072}
  }

  lemma SplitMode(mode: nat) returns (kind: nat, sticky: nat)
    ensures mode / 0x1000 % 64 == kind && mode / 0x200 % 8 == sticky
    ensures var low := mode % 262144; low - low % 4096 == 4096 * kind && low % 4096 - low % 512 == 512 * sticky
  {
    var h, low := mode / 262144, mode % 262144;
    var u := low % 4096;
    kind := low / 4096;
    sticky := u / 512;
    DivisionIs(mode, 4096, 64 * h + kind, u);
    DivisionIs(64 * h + kind, 64, h, kind);
    DivisionIs(mode, 512, 512 * h + 8 * kind + sticky, u % 512);
    DivisionIs(low, 512, 8 * kind + sticky, u % 512);
    DivisionIs(512 * h + 8 * kind + sticky, 8, 64 * h + kind, sticky);
  }

  lemma ModeIs(mode: nat)
    ensures ModeIsValid(mode) <==> KnownMode(mode)
  {
    var kind, sticky := SplitMode(mode);
  }

  /** The sum of the bytes in 32 bits. */
  function Checksum(bytes: seq<byte>): nat {
    if bytes == [] then 0 else (Checksum(bytes[..|bytes| - 1]) + bytes[|bytes| - 1]) % 4294967296
  }

  lemma {:induction false} ChecksumIs(bytes: seq<byte>)
    ensures ByteSum(bytes) % 0x1_0000_0000 == Checksum(bytes)
  {
    if bytes != [] {
      var front, last := bytes[..|bytes| - 1], bytes[|bytes| - 1];
      ChecksumIs(front);
      assert bytes == front + [last];
      TotalAppend(Value, front, last);
      SumWraps(ByteSum(front), last);
    }
  }

  lemma SumWraps(a: nat, b: nat)
    ensures (a % 4294967296 + b) % 4294967296 == (a + b) % 4294967296
  {
    var q, c := a / 4294967296, a % 4294967296 + b;
    DivisionIs(a + b, 4294967296, q + c / 4294967296, c % 4294967296);
  }

  function Ascii(s: string): (r: seq<byte>)
    ensures |r| == |s| && forall k :: 0 <= k < |s| ==> r[k] == s[k] as int % 256
  {
    seq(|s|, k requires 0 <= k < |s| => s[k] as int % 256)
  }

  lemma TrailerIs()
    ensures TRAILER_NAME == Ascii("TRAILER!!!")
  {
  }

  /** What is written fits into its fields; a name is taken without zeros at its end. */
  ghost predicate FieldsFit(m: Source) {
    && (forall f :: m.field(f) < 0x1_0000_0000)
    && |m.content| < 0x1_0000_0000 && |m.name| + 1 < 0x1_0000_0000
    && (m.name != [] ==> m.name[|m.name| - 1] != 0)
  }

  /** A name that is accepted: not too long, closed by a zero, and text. */
  predicate NameOk(t: Format, m: Source) {
    |m.name| + 1 <= 4096 && m.closing == 0 && t.utf8(m.name)
  }

  predicate SourceOk(t: Format, m: Source) {
    NameOk(t, m) && m.name != Ascii("TRAILER!!!") && KnownMode(m.field(Mode))
  }

  function Cell(t: Format, m: Source, f: Field): (s: seq<byte>)
    ensures |s| == 8
  {
    Hex(FieldValue(t, m, f), 8)
  }

  const FIELDS := [Ino, Mode, Uid, Gid, NLink, MTime, FileSize, DevMaj, DevMin, RDevMaj, RDevMin, NameSize, Chksum]

  function Cells(t: Format, m: Source, fields: seq<Field>): (s: seq<byte>)
    ensures |s| == 8 * |fields|
  {
    if fields == [] then [] else Cell(t, m, fields[0]) + Cells(t, m, fields[1..])
  }

  function Magic(t: Format): (s: seq<byte>)
    ensures |s| == 6
  {
    [0x30, 0x37, 0x30, 0x37, 0x30, if t.crc then 0x32 else 0x31]
  }

  function Header(t: Format, m: Source): (h: seq<byte>)
    ensures |h| == HEADER_LEN
  {
    Magic(t) + Cells(t, m, FIELDS)
  }

  lemma {:induction false} CellAt(t: Format, m: Source, fields: seq<Field>, i: nat)
    requires i < |fields|
    ensures Cells(t, m, fields)[8 * i..8 * i + 8] == Cell(t, m, fields[i])
    decreases i
  {
    hide Cell;
    var rest := Cells(t, m, fields[1..]);
    if i == 0 {
      assert (Cell(t, m, fields[0]) + rest)[0..8] == Cell(t, m, fields[0]);
    } else {
      CellAt(t, m, fields[1..], i - 1);
      assert (Cell(t, m, fields[0]) + rest)[8 * i..8 * i + 8] == rest[8 * (i - 1)..8 * (i - 1) + 8];
    }
  }

  lemma HeaderField(t: Format, m: Source, f: Field)
    ensures FieldOf(Header(t, m), f) == Cell(t, m, f)
  {
    hide Cells;
    var i := (Place(f) - 6) / 8;
    assert FIELDS[i] == f && Place(f) == 6 + 8 * i;
    CellAt(t, m, FIELDS, i);
    SubSlice(Magic(t) + Cells(t, m, FIELDS), 6, HEADER_LEN, 8 * i, 8 * i + 8);
    assert (Magic(t) + Cells(t, m, FIELDS))[6..HEADER_LEN] == Cells(t, m, FIELDS);
  }

  lemma NumberIs(t: Format, m: Source, f: Field)
    requires ReadsHex(t) && FieldValue(t, m, f) < 0x1_0000_0000
    ensures Number(t, Header(t, m), f) == Ok(FieldValue(t, m, f))
  {
    hide Header, FieldValue;
    HeaderField(t, m, f);
    EightDigits();
    HexRoundTrip(FieldValue(t, m, f), 8);
  }

  /** The header and the name with its closing zero, padded. */
  function Head(t: Format, m: Source): seq<byte> {
    Header(t, m) + (m.name + [m.closing]) + Zeros(Padding(110 + |m.name| + 1, 4))
  }

  function MemberBytes(t: Format, m: Source): seq<byte> {
    Head(t, m) + (m.content + Zeros(Padding(|m.content|, 4)))
  }

  function ArchiveBytes(t: Format, members: seq<Source>, last: Source): seq<byte> {
    if members == [] then MemberBytes(t, last) else MemberBytes(t, members[0]) + ArchiveBytes(t, members[1..], last)
  }

  /** The entry that a member written at an offset stands for. */
  function EntryOf(t: Format, m: Source, pos: nat): CPIOEntry {
    CPIOEntry(pos + RoundUp(110 + |m.name| + 1, 4), |m.content|, (m.field(DevMaj), m.field(DevMin)),
              m.field(Mode), (m.field(RDevMaj), m.field(RDevMin)), m.name)
  }

  /** With checksums, a member whose checksum is wrong has no entry. */
  function EntriesFor(t: Format, m: Source, pos: nat): seq<CPIOEntry> {
    if t.crc && m.field(Chksum) != Checksum(m.content) then [] else [EntryOf(t, m, pos)]
  }

  /** What stands where a member was written. */
  function Reading(t: Format, m: Source, pos: nat): Result<Parsed> {
    var next := pos + |MemberBytes(t, m)|;
    if !NameOk(t, m) then Err(InvalidInputFormat)
    else if m.name == Ascii("TRAILER!!!") then Ok(Trailer(next))
    else if !KnownMode(m.field(Mode)) then Err(InvalidInputFormat)
    else Ok(Member(EntriesFor(t, m, pos), next))
  }

  function EntriesOf(t: Format, members: seq<Source>, pos: nat): seq<CPIOEntry> {
    if members == [] then []
    else EntriesFor(t, members[0], pos) + EntriesOf(t, members[1..], pos + |MemberBytes(t, members[0])|)
  }

  /** What the parser needs of its parameters. */
  ghost predicate Sound(t: Format) {
    ReadsHex(t) && t.utf8(Ascii("TRAILER!!!"))
  }

  // ---- reading what was written ----

  predicate PlacedAt(data: seq<byte>, pos: nat, part: seq<byte>) {
    pos + |part| <= |data| && data[pos..pos + |part|] == part
  }

  lemma Placed(data: seq<byte>, pos: nat, a: seq<byte>, b: seq<byte>)
    requires PlacedAt(data, pos, a + b)
    ensures PlacedAt(data, pos, a) && PlacedAt(data, pos + |a|, b)
  {
    var whole := data[pos..pos + |a| + |b|];
    assert whole[..|a|] == a && whole[|a|..] == b;
  }

  lemma MemberLength(t: Format, m: Source)
    ensures |Head(t, m)| == RoundUp(110 + |m.name| + 1, 4)
    ensures |MemberBytes(t, m)| == |Head(t, m)| + RoundUp(|m.content|, 4)
  {
    hide RoundUp, Header;
  }

  lemma PartsOfMember(t: Format, m: Source, data: seq<byte>, pos: nat)
    requires PlacedAt(data, pos, MemberBytes(t, m))
    ensures PlacedAt(data, pos, Header(t, m)) && PlacedAt(data, pos + HEADER_LEN, m.name + [m.closing])
    ensures PlacedAt(data, pos + |Head(t, m)|, m.content)
  {
    hide Header, Padding;
    var head, tail := Header(t, m) + (m.name + [m.closing]), m.content + Zeros(Padding(|m.content|, 4));
    Placed(data, pos, Head(t, m), tail);
    Placed(data, pos + |Head(t, m)|, m.content, Zeros(Padding(|m.content|, 4)));
    Placed(data, pos, head, Zeros(Padding(110 + |m.name| + 1, 4)));
    Placed(data, pos, Header(t, m), m.name + [m.closing]);
  }

  lemma SliceOfPart(data: seq<byte>, pos: nat, part: seq<byte>)
    requires PlacedAt(data, pos, part)
    ensures Slice(data, pos, |part|) == part
  {
  }

  lemma NameIsRead(t: Format, data: seq<byte>, pos: nat, m: Source)
    requires PlacedAt(data, pos, m.name + [m.closing]) && (m.name != [] ==> m.name[|m.name| - 1] != 0)
    ensures NameAt(t, data, pos, |m.name| + 1) ==
            if m.closing == 0 && t.utf8(m.name) then Ok(m.name) else Err(InvalidInputFormat)
  {
    SliceOfPart(data, pos, m.name + [m.closing]);
    if m.closing == 0 {
      assert (m.name + [0])[..|m.name|] == m.name;
      assert StripNulls(m.name) == m.name;
    }
  }

  lemma EntryIsRead(t: Format, m: Source, data: seq<byte>, pos: nat)
    requires Sound(t) && FieldsFit(m) && PlacedAt(data, pos, m.content)
    ensures EntryFrom(t, data, Header(t, m), m.name, pos, |m.content|) ==
            if !KnownMode(m.field(Mode)) then Err(InvalidInputFormat)
            else if t.crc && m.field(Chksum) != Checksum(m.content) then Ok([])
            else
              Ok([CPIOEntry(pos, |m.content|, (m.field(DevMaj), m.field(DevMin)), m.field(Mode),
                            (m.field(RDevMaj), m.field(RDevMin)), m.name)])
  {
    hide Number, Header, ModeIsValid, KnownMode, ByteSum, Checksum, Slice;
    NumberIs(t, m, Mode);
    NumberIs(t, m, DevMaj);
    NumberIs(t, m, DevMin);
    NumberIs(t, m, RDevMaj);
    NumberIs(t, m, RDevMin);
    NumberIs(t, m, Chksum);
    SliceOfPart(data, pos, m.content);
    ModeIs(m.field(Mode));
    ChecksumIs(m.content);
  }

  lemma SoundHex(t: Format)
    requires Sound(t)
    ensures ReadsHex(t)
  {
  }

  lemma HeaderIsRead(t: Format, m: Source, data: seq<byte>, pos: nat)
    requires Sound(t) && FieldsFit(m) && PlacedAt(data, pos, Header(t, m))
    ensures ParseAt(t, data, pos) ==
            if |m.name| + 1 > 4096 then Err(InvalidInputFormat)
            else ParseNamed(t, data, pos, Header(t, m), |m.content|, |m.name| + 1)
  {
    hide Number, Header, ParseNamed, Cells, Cell, Sound;
    SoundHex(t);
    NumberIs(t, m, FileSize);
    NumberIs(t, m, NameSize);
    assert data[pos..pos + HEADER_LEN] == Header(t, m);
  }

  /**
   Whatever was written is read as what it is: a name that is too long, not closed or not text and an unknown
   mode are refused, in this order around the trailer, and a wrong checksum makes no entry.
   */
  lemma ParsesMember(t: Format, m: Source, data: seq<byte>, pos: nat)
    requires Sound(t) && FieldsFit(m) && PlacedAt(data, pos, MemberBytes(t, m))
    ensures ParseAt(t, data, pos) == Reading(t, m, pos)
  {
    hide ParseAt, Header, MemberBytes, Head, NameAt, EntryFrom, RoundUp, KnownMode, Checksum, Ascii;
    PartsOfMember(t, m, data, pos);
    MemberLength(t, m);
    HeaderIsRead(t, m, data, pos);
    NameIsRead(t, data, pos + HEADER_LEN, m);
    EntryIsRead(t, m, data, pos + |Head(t, m)|);
    TrailerIs();
  }

  /** Where less than a header is left the archive ends; beyond the file nothing can be read. */
  lemma EndOfFile(t: Format, data: seq<byte>, pos: nat)
    ensures pos <= |data| < pos + 110 ==> ParseAt(t, data, pos) == Ok(NoHeader)
    ensures pos > |data| ==> ParseAt(t, data, pos) == Err(SeekError)
  {
  }

  predicate IsTrailer(t: Format, m: Source) {
    NameOk(t, m) && m.name == Ascii("TRAILER!!!")
  }

  ghost predicate AllOk(t: Format, members: seq<Source>) {
    members == [] || (SourceOk(t, members[0]) && FieldsFit(members[0]) && AllOk(t, members[1..]))
  }

  lemma {:induction false} ParsesMembers(t: Format, members: seq<Source>, last: Source, data: seq<byte>, pos: nat)
    requires Sound(t) && AllOk(t, members) && IsTrailer(t, last) && FieldsFit(last)
    requires PlacedAt(data, pos, ArchiveBytes(t, members, last))
    ensures Entries(t, data, pos) ==
            Ok(Archive(EntriesOf(t, members, pos), pos + |ArchiveBytes(t, members, last)|))
    decreases |members|
  {
    hide ParseAt, MemberBytes, EntriesFor, KnownMode, FieldsFit, Ascii, NameOk, Sound;
    if members == [] {
      ParsesMember(t, last, data, pos);
    } else {
      var first := MemberBytes(t, members[0]);
      Placed(data, pos, first, ArchiveBytes(t, members[1..], last));
      ParsesMember(t, members[0], data, pos);
      ParsesMembers(t, members[1..], last, data, pos + |first|);
    }
  }

  /**
   Every archive is read as it was written, wherever it stands: names, modes, devices, sizes and offsets in
   order.  Its end includes the padding to a multiple of 512 bytes just when that is all there and zero.
   */
  lemma RoundTrip(t: Format, prefix: seq<byte>, members: seq<Source>, last: Source, rest: seq<byte>)
    requires Sound(t) && AllOk(t, members) && IsTrailer(t, last) && FieldsFit(last)
    ensures var archive := ArchiveBytes(t, members, last);
            var pad := Padding(|archive|, 512);
            Parse(t, prefix + archive + rest, |prefix|) ==
            Ok(Archive(EntriesOf(t, members, |prefix|),
                       |prefix| + |archive| + if pad <= |rest| && AllZero(rest[..pad]) then pad else 0))
  {
    hide Entries, ArchiveBytes, EntriesOf, PaddedEnd, Padding, AllZero, Sound, AllOk, FieldsFit, IsTrailer, PlacedAt;
    var archive := ArchiveBytes(t, members, last);
    ArchiveIsPlaced(prefix, archive, rest);
    ParsesMembers(t, members, last, prefix + archive + rest, |prefix|);
    ArchiveNotEmpty(t, members, last);
    EndIsPadded(prefix, archive, rest);
  }

  lemma ArchiveIsPlaced(prefix: seq<byte>, archive: seq<byte>, rest: seq<byte>)
    ensures PlacedAt(prefix + archive + rest, |prefix|, archive)
  {
  }

  lemma EndIsPadded(prefix: seq<byte>, archive: seq<byte>, rest: seq<byte>)
    ensures var pad := Padding(|archive|, 512);
            PaddedEnd(prefix + archive + rest, |prefix|, |prefix| + |archive|) ==
            Ok(|prefix| + |archive| + if pad <= |rest| && AllZero(rest[..pad]) then pad else 0)
  {
    hide RoundUp, AllZero;
    var end, pad := |prefix| + |archive|, Padding(|archive|, 512);
    if pad <= |rest| {
      assert (prefix + archive + rest)[end..end + pad] == rest[..pad];
    }
  }

  lemma ArchiveNotEmpty(t: Format, members: seq<Source>, last: Source)
    ensures ArchiveBytes(t, members, last) != []
  {
    hide RoundUp, Cells;
  }
}
