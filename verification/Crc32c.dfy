/**
 CRC-32C as used for the commands of a send stream: the reflected Castagnoli polynomial of section 12.1
 of RFC 3720, computed with a table of 256 entries, with no inversion before or after.
 */
module Crc32c {
  import opened Bytes
  import opened BitOps
  import opened Files

  const POLYNOMIAL := 0x82F63B78
  const WORD_SIZE := 0x1_0000_0000

  // ---- the shift register ----

  /** One bit is shifted out; the polynomial is added if it was set. */
  function Shift(crc: nat): nat {
    if crc % 2 == 1 then Xor(crc / 2, POLYNOMIAL) else crc / 2
  }

  function Shifts(crc: nat, n: nat): nat
    decreases n, crc
  {
    if n == 0 then crc else Shifts(Shift(crc), n - 1)
  }

  /** The register after a message: each byte is added and shifted out. */
  function Register(data: seq<byte>, crc: nat): nat
    decreases |data|
  {
    if data == [] then crc else Register(data[1..], Shifts(Xor(crc, data[0]), 8))
  }

  // ---- the table ----

  method MakeCrc32cTable() returns (table: seq<nat>)
    ensures |table| == 256 && forall i :: 0 <= i < 256 ==> table[i] == Shifts(i, 8)
  {
    table := [];
    for i := 0 to 256
      invariant |table| == i && forall k :: 0 <= k < i ==> table[k] == Shifts(k, 8)
    {
      var crc: nat := i;
      for bit := 0 to 8
        invariant Shifts(i, 8) == Shifts(crc, 8 - bit)
      {
        if crc % 2 == 1 {
          crc := Xor(crc / 2, POLYNOMIAL);
        } else {
          crc := crc / 2;
        }
      }
      table := table + [crc];
    }
  }

  lemma ShiftIsLinear(x: nat, y: nat)
    ensures Shift(Xor(x, y)) == Xor(Shift(x), Shift(y))
  {
    XorStep(x, y);
    XorCommon(x / 2, y / 2, POLYNOMIAL);
  }

  lemma {:induction false} ShiftsAreLinear(x: nat, y: nat, n: nat)
    ensures Shifts(Xor(x, y), n) == Xor(Shifts(x, n), Shifts(y, n))
    decreases n
  {
    if n > 0 {
      ShiftIsLinear(x, y);
      ShiftsAreLinear(Shift(x), Shift(y), n - 1);
    }
  }

  /** Zero bits are shifted out without effect. */
  lemma {:induction false} ShiftsOfZeros(h: nat, n: nat)
    ensures Shifts(DoubleN(h, n), n) == h
    decreases n
  {
    if n > 0 {
      ShiftsOfZeros(h, n - 1);
    }
  }

  lemma OctetOfZeros(h: nat)
    ensures Shifts(256 * h, 8) == h
  {
    Double8(h);
    ShiftsOfZeros(h, 8);
  }

  lemma OctetOf(h: nat, low: nat)
    requires low < 256
    ensures Shifts(256 * h + low, 8) == Xor(h, Shifts(low, 8))
  {
    XorLowByte(h, low);
    ShiftsAreLinear(256 * h, low, 8);
    OctetOfZeros(h);
  }

  lemma LowByteIs(x: nat, h: nat, low: nat)
    requires x == 256 * h + low && low < 256
    ensures x % 256 == low && x / 256 == h
  {
  }

  /** Adding a byte leaves the rest of the register alone. */
  lemma AddByte(crc: nat, b: byte) returns (h: nat, low: nat)
    ensures h == crc / 256 && low == Xor(crc, b) % 256 && Xor(crc, b) == 256 * h + low
  {
    h, low := crc / 256, Xor(crc % 256, b);
    XorBytes(h, crc % 256, 0, b);
    XorZero(h);
    LowByteIs(Xor(crc, b), h, low);
  }

  /** The table gives in one step what the register does in eight. */
  lemma TableStep(crc: nat, b: byte)
    ensures Shifts(Xor(crc, b), 8) == Xor(crc / 256, Shifts(Xor(crc, b) % 256, 8))
  {
    var h, low := AddByte(crc, b);
    OctetOf(h, low);
  }

  lemma EvenShift(v: nat, n: nat)
    requires n > 0 && v % 2 == 0
    ensures Shifts(v, n) == Shifts(v / 2, n - 1)
  {
    hide Xor;
  }

  lemma LastShift(one: nat)
    requires one == 1
    ensures Shifts(one, 1) == POLYNOMIAL
  {
    var rest := one / 2;
    XorZero(POLYNOMIAL);
    hide Xor;
    assert Shifts(one, 1) == Shifts(Xor(rest, POLYNOMIAL), 0);
  }

  lemma SevenShifts(v: nat)
    requires v == 0x80
    ensures Shifts(v, 8) == POLYNOMIAL
  {
    hide Shifts;
    EvenShift(v, 8);
    EvenShift(v / 2, 7);
    EvenShift(v / 4, 6);
    EvenShift(v / 8, 5);
    EvenShift(v / 16, 4);
    EvenShift(v / 32, 3);
    EvenShift(v / 64, 2);
    LastShift(v / 128);
  }

  lemma OneByte(v: byte)
    ensures Register([v], 0) == Shifts(v, 8)
  {
    XorZero(v);
    hide Xor, Shifts;
    assert [v][1..] == [];
    assert Register([], Shifts(v, 8)) == Shifts(v, 8);
  }

  /** The polynomial is that of the standard: it is what a byte with only its highest bit set leaves. */
  lemma CheckValue(v: byte)
    requires v == 0x80
    ensures Register([v], 0) == 0x82F63B78
  {
    hide Register, Shifts;
    OneByte(v);
    SevenShifts(v);
  }

  // ---- the serial form: one bit of the message at a time ----

  function FeedBits(crc: nat, bits: nat, n: nat): nat
    decreases n, crc, bits
  {
    if n == 0 then crc else FeedBits(Shift(Xor(crc, bits % 2)), bits / 2, n - 1)
  }

  function Serial(data: seq<byte>, crc: nat): nat
    decreases |data|
  {
    if data == [] then crc else Serial(data[1..], FeedBits(crc, data[0], 8))
  }

  lemma LowBitAdded(h: nat, b: nat)
    requires b < 2
    ensures Xor(b, 2 * h) == 2 * h + b
  {
    XorDisjoint(h, b, 1);
    XorComm(2 * h, b);
  }

  lemma SplitOff(crc: nat, h: nat, b: nat)
    requires b < 2
    ensures Xor(crc, 2 * h + b) == Xor(Xor(crc, b), 2 * h)
  {
    LowBitAdded(h, b);
    XorAssoc(crc, b, 2 * h);
  }

  lemma SplitLowBit(crc: nat, bits: nat)
    ensures Shift(Xor(crc, bits)) == Xor(Shift(Xor(crc, bits % 2)), bits / 2)
  {
    hide Xor;
    var h := bits / 2;
    SplitOff(crc, h, bits % 2);
    ShiftIsLinear(Xor(crc, bits % 2), 2 * h);
    assert Shift(2 * h) == h;
  }

  lemma {:induction false} FeedingIsShifting(crc: nat, bits: nat, n: nat)
    requires bits < DoubleN(1, n)
    ensures FeedBits(crc, bits, n) == Shifts(Xor(crc, bits), n)
    decreases n
  {
    if n == 0 {
      XorZero(crc);
    } else {
      SplitLowBit(crc, bits);
      FeedingIsShifting(Shift(Xor(crc, bits % 2)), bits / 2, n - 1);
    }
  }

  /** Adding a whole byte before shifting it out is feeding its bits one at a time. */
  lemma {:induction false} RegisterIsSerial(data: seq<byte>, crc: nat)
    ensures Register(data, crc) == Serial(data, crc)
    decreases |data|
  {
    if data != [] {
      Double8(1);
      FeedingIsShifting(crc, data[0], 8);
      RegisterIsSerial(data[1..], Shifts(Xor(crc, data[0]), 8));
    }
  }

  /** The checksum of the program: one table lookup per byte. */
  method CalculateCrc32(table: seq<nat>, data: seq<byte>, seed: nat) returns (crc: nat)
    requires |table| == 256 && forall i :: 0 <= i < 256 ==> table[i] == Shifts(i, 8)
    ensures crc == Register(data, seed)
  {
    crc := seed;
    for k := 0 to |data|
      invariant Register(data, seed) == Register(data[k..], crc)
    {
      assert data[k..][1..] == data[k + 1..];
      TableStep(crc, data[k]);
      crc := Xor(crc / 256, table[Xor(crc, data[k]) % 256]);
    }
  }

  /** Checking in pieces is checking the whole. */
  lemma {:induction false} RegisterConcat(a: seq<byte>, b: seq<byte>, crc: nat)
    ensures Register(a + b, crc) == Register(b, Register(a, crc))
    decreases |a|
  {
    if a == [] {
      ConcatAssociates(b, [], []);
    } else {
      RegisterConcat(a[1..], b, Shifts(Xor(crc, a[0]), 8));
      assert (a + b)[1..] == a[1..] + b;
    }
  }

  lemma FedBlock(header: seq<byte>, blocks: seq<seq<byte>>, k: nat)
    requires k < |blocks|
    ensures Register(blocks[k], Register(header + Flatten(blocks[..k]), 0)) ==
            Register(header + Flatten(blocks[..k + 1]), 0)
  {
    assert blocks[..k + 1][..k] == blocks[..k];
    ConcatAssociates(header, Flatten(blocks[..k]), blocks[k]);
    RegisterConcat(header + Flatten(blocks[..k]), blocks[k], 0);
  }

  /** The command's checksum covers its header, with the checksum field zeroed, and its data. */
  method ValidCrc32(table: seq<nat>, file: File, header: seq<byte>, dataLen: nat, stored: nat, bufferSize: nat)
    returns (valid: bool)
    requires |table| == 256 && forall i :: 0 <= i < 256 ==> table[i] == Shifts(i, 8)
    requires file.Valid() && bufferSize > 0
    modifies file
    ensures file.Valid() && valid == (stored == Register(header + Slice(file.data, old(file.pos), dataLen), 0))
    ensures valid ==> file.pos == old(file.pos)
  {
    var dataStart := file.pos;
    var crc := CalculateCrc32(table, header, 0);
    var r := IterateFile(file, dataStart, dataLen, bufferSize);
    var blocks := r.value;
    ConcatAssociates(header, [], []);
    for k := 0 to |blocks|
      invariant file.Valid() && crc == Register(header + Flatten(blocks[..k]), 0)
    {
      FedBlock(header, blocks, k);
      crc := CalculateCrc32(table, blocks[k], crc);
    }
    assert blocks[..|blocks|] == blocks;
    if stored == crc {
      var ok := file.Seek(dataStart);
      return true;
    }
    return false;
  }

  // ---- what the checksum detects ----

  lemma {:induction false} XorTop(a: nat, b: nat, n: nat)
    requires a < DoubleN(1, n) <= b < DoubleN(1, n + 1)
    ensures DoubleN(1, n) <= Xor(a, b) < DoubleN(1, n + 1)
  {
    XorBound(a, b, n + 1);
    XorStep(a, b);
    if n > 0 {
      XorTop(a / 2, b / 2, n - 1);
    }
  }

  lemma Double31()
    ensures DoubleN(1, 31) == 0x8000_0000 && DoubleN(1, 32) == WORD_SIZE
  {
    DoubleTwice(1, 8, 8);
    DoubleTwice(1, 16, 8);
    DoubleTwice(1, 24, 8);
    Double8(1);
    Double8(0x100);
    Double8(0x1_0000);
    Double8(0x100_0000);
  }

  /** The polynomial's top bit tells which branch was taken, so no two words are shifted to the same one. */
  lemma ShiftIsInjective(x: nat, y: nat)
    requires x < WORD_SIZE && y < WORD_SIZE
    ensures Shift(x) < WORD_SIZE
    ensures Shift(x) == Shift(y) ==> x == y
  {
    Double31();
    XorTop(x / 2, POLYNOMIAL, 31);
    XorTop(y / 2, POLYNOMIAL, 31);
    XorInjective(x / 2, y / 2, POLYNOMIAL);
  }

  lemma {:induction false} ShiftsAreInjective(x: nat, y: nat, n: nat)
    requires x < WORD_SIZE && y < WORD_SIZE
    ensures Shifts(x, n) < WORD_SIZE
    ensures Shifts(x, n) == Shifts(y, n) ==> x == y
    decreases n
  {
    if n > 0 {
      ShiftIsInjective(x, y);
      ShiftIsInjective(y, x);
      ShiftsAreInjective(Shift(x), Shift(y), n - 1);
    }
  }

  lemma WordXorByte(crc: nat, b: byte)
    requires crc < WORD_SIZE
    ensures Xor(crc, b) < WORD_SIZE
  {
    Double31();
    XorBound(crc, b, 32);
  }

  /** From different words, the same message leads to different words. */
  lemma {:induction false} RegisterIsInjective(data: seq<byte>, x: nat, y: nat)
    requires x < WORD_SIZE && y < WORD_SIZE
    ensures Register(data, x) < WORD_SIZE
    ensures Register(data, x) == Register(data, y) ==> x == y
    decreases |data|
  {
    if data != [] {
      var b := data[0];
      WordXorByte(x, b);
      WordXorByte(y, b);
      ShiftsAreInjective(Xor(x, b), Xor(y, b), 8);
      ShiftsAreInjective(Xor(y, b), Xor(x, b), 8);
      XorInjective(x, y, b);
      RegisterIsInjective(data[1..], Shifts(Xor(x, b), 8), Shifts(Xor(y, b), 8));
    }
  }

  lemma {:induction false} LittleEndianIsInjective(a: seq<byte>, b: seq<byte>)
    requires |a| == |b| && LittleEndian(a) == LittleEndian(b)
    ensures a == b
  {
    if a != [] {
      LittleEndianIsInjective(a[1..], b[1..]);
      assert a == [a[0]] + a[1..] && b == [b[0]] + b[1..];
    }
  }

  /** How many values fit into so many bytes. */
  function Room(bytes: nat): nat {
    if bytes == 0 then 1 else 256 * Room(bytes - 1)
  }

  lemma ThreeBytes(k: nat)
    requires k <= 3
    ensures 256 * Room(k) <= WORD_SIZE
  {
    assert Room(3) == 0x100_0000;
  }

  /** Two words led to the same word by two short messages differ by the difference of the messages. */
  lemma {:induction false} SameEndMeansSameDifference(a: seq<byte>, b: seq<byte>, x: nat, y: nat)
    requires |a| == |b| <= 4 && x < WORD_SIZE && y < WORD_SIZE && Register(a, x) == Register(b, y)
    ensures Xor(x, y) == Xor(LittleEndian(a), LittleEndian(b)) < Room(|a|)
    decreases |a|
  {
    hide Xor, Shifts;
    if a == [] {
      XorSelf(x);
      XorSelf(0);
    } else {
      var u, v := NextWord(x, a[0]), NextWord(y, b[0]);
      SameEndMeansSameDifference(a[1..], b[1..], u, v);
      ThreeBytes(|a| - 1);
      DifferenceBefore(x, y, a[0], b[0], LittleEndian(a[1..]), LittleEndian(b[1..]));
    }
  }

  function NextWord(crc: nat, b: byte): (next: nat)
    requires crc < WORD_SIZE
    ensures next < WORD_SIZE
  {
    WordXorByte(crc, b);
    ShiftsAreInjective(Xor(crc, b), Xor(crc, b), 8);
    Shifts(Xor(crc, b), 8)
  }

  lemma ShiftedDifference(x: nat, y: nat, d: nat)
    requires x < WORD_SIZE && y < WORD_SIZE && Xor(Shifts(x, 8), Shifts(y, 8)) == d && 256 * d < WORD_SIZE
    ensures Xor(x, y) == 256 * d
  {
    Double31();
    XorBound(x, y, 32);
    ShiftsAreLinear(x, y, 8);
    Double8(d);
    ShiftsOfZeros(d, 8);
    ShiftsAreInjective(Xor(x, y), 256 * d, 8);
  }

  lemma DifferenceBefore(x: nat, y: nat, a: byte, b: byte, la: nat, lb: nat)
    requires x < WORD_SIZE && y < WORD_SIZE && 256 * Xor(la, lb) < WORD_SIZE
    requires Xor(NextWord(x, a), NextWord(y, b)) == Xor(la, lb)
    ensures Xor(x, y) == Xor(a + 256 * la, b + 256 * lb) == 256 * Xor(la, lb) + Xor(a, b)
    ensures Xor(a, b) < 256
  {
    WordXorByte(x, a);
    WordXorByte(y, b);
    ShiftedDifference(Xor(x, a), Xor(y, b), Xor(la, lb));
    BytesAdded(x, y, a, b, la, lb);
  }

  lemma BytesAdded(x: nat, y: nat, a: byte, b: byte, la: nat, lb: nat)
    requires Xor(Xor(x, a), Xor(y, b)) == 256 * Xor(la, lb)
    ensures Xor(x, y) == Xor(a + 256 * la, b + 256 * lb) == 256 * Xor(la, lb) + Xor(a, b)
    ensures Xor(a, b) < 256
  {
    var d, e := Xor(x, y), Xor(a, b);
    XorSwap(x, a, y, b);
    XorCancels(d, e);
    XorIsByte(a, b);
    XorLowByte(Xor(la, lb), e);
    XorBytes(la, a, lb, b);
  }

  /** A change confined to four consecutive bytes, whatever comes before and after, changes the checksum. */
  lemma BurstIsDetected(before: seq<byte>, a: seq<byte>, b: seq<byte>, after: seq<byte>, seed: nat)
    requires |a| == |b| <= 4 && a != b && seed < WORD_SIZE
    ensures Register(before + a + after, seed) != Register(before + b + after, seed)
  {
    var c := Register(before, seed);
    RegisterIsInjective(before, seed, seed);
    RegisterIsInjective(a, c, c);
    RegisterIsInjective(b, c, c);
    RegisterConcat(before + a, after, seed);
    RegisterConcat(before, a, seed);
    RegisterConcat(before + b, after, seed);
    RegisterConcat(before, b, seed);
    RegisterIsInjective(after, Register(a, c), Register(b, c));
    if Register(a, c) == Register(b, c) {
      SameEndMeansSameDifference(a, b, c, c);
      XorSelf(c);
      XorInjective(LittleEndian(a), LittleEndian(b), 0);
      LittleEndianIsInjective(a, b);
    }
  }
}
