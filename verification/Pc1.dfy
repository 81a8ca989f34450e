/**
 The cipher once more, as PC1 is usually written: one pass over the key with four registers of sixteen
 bits, no table, and numbers of its own.  The key is exclusive-ored with what has been decrypted so far.
 */
module Pc1 {
  import opened Bytes
  import opened BitOps
  import C = Cryptor

  datatype Registers = Registers(ax: nat, si: nat, dx: nat, inter: nat)

  /** Sixteen bits of the key.  A high byte from 128 on counts for one less, as in C programs with signed characters. */
  function Word(high: nat, low: nat): nat {
    if high < 128 then 256 * high + low else 256 * (high - 1) + low
  }

  function Code(r: Registers, i: nat, word: nat): Registers {
    var x := Xor(r.ax, word);
    var cx := (20021 * ((r.dx + i) % 65536) % 65536 + 346 * x) % 65536;
    var ax, dx := (20021 * x % 65536 + 1) % 65536, (r.si + cx) % 65536;
    Registers(ax, 346 * x % 65536, dx, Xor(r.inter, Xor(ax, dx)))
  }

  /** Runs through the words of the key from the `i`-th on. */
  function Assemble(key: seq<byte>, acc: nat, i: nat, r: Registers): Registers
    requires 2 * i <= |key|
    decreases |key| - 2 * i
  {
    if 2 * i + 2 > |key| then r
    else Assemble(key, acc, i + 1, Code(r, i, Word(Xor(key[2 * i], acc), Xor(key[2 * i + 1], acc))))
  }

  /** The plain text; `si` and `dx` are kept from byte to byte. */
  function Decrypt(key: seq<byte>, acc: nat, si: nat, dx: nat, cipher: seq<byte>): seq<nat>
    decreases |cipher|
  {
    if cipher == [] then []
    else
      var end := Assemble(key, acc, 0, Registers(0, si, dx, 0));
      var plain := Xor(cipher[0], Xor(end.inter / 256, end.inter % 256));
      [plain] + Decrypt(key, Xor(acc, plain), end.si, end.dx, cipher[1..])
  }

  // ---- both are the same ----

  lemma SplitByte(a: nat)
    ensures a == 256 * (a / 256) + a % 256
  {
  }

  lemma XorOfWords(a: nat, b: nat)
    ensures Xor(a, b) % 256 == Xor(a % 256, b % 256) && Xor(a, b) / 256 == Xor(a / 256, b / 256)
  {
    hide Xor;
    XorBytes(a / 256, a % 256, b / 256, b % 256);
    SplitByte(a);
    SplitByte(b);
  }

  /** Exclusive or respects the sixteen low bits. */
  lemma XorWraps(a: nat, b: nat)
    ensures Xor(a, b) % 65536 == Xor(a % 65536, b % 65536)
  {
    hide Xor;
    XorOfWords(a, b);
    XorOfWords(a / 256, b / 256);
    XorOfWords(a % 65536, b % 65536);
    XorOfWords(a % 65536 / 256, b % 65536 / 256);
    TwoBytes(a);
    TwoBytes(b);
    TwoBytes(Xor(a, b));
    C.WordsXor(a % 65536, b % 65536);
    TwoBytes(Xor(a % 65536, b % 65536));
  }

  lemma TwoBytes(a: nat)
    ensures a % 65536 == 256 * (a / 256 % 256) + a % 256
    ensures a % 65536 % 256 == a % 256 && a % 65536 / 256 % 256 == a / 256 % 256
  {
    var h, l := a / 256, a % 256;
    var q, m := h / 256, h % 256;
    SplitByte(a);
    SplitByte(h);
    DivisionIs(a, 65536, q, 256 * m + l);
    DivisionIs(256 * m + l, 256, m, l);
  }

  lemma WordIs(high: nat, low: nat)
    requires high < 256 && low < 256
    ensures (C.Promote(high) * 256 + low) % 0x1_0000_0000 % 65536 == Word(high, low) < 65536
  {
    if high >= 128 {
      var v := (high - 0x101) * 256 + low;
      assert v + 0x1_0000_0000 == 65535 * 65536 + Word(high, low);
    }
  }

  lemma Multiple(k: nat, v: nat)
    ensures (65536 * k + v) % 65536 == v % 65536
  {
  }

  lemma Nested(a: nat, b: nat)
    ensures (a % 65536 + b) % 65536 == (a + b) % 65536
  {
    Multiple(a / 65536, a % 65536 + b);
  }

  lemma NestedTimes(a: nat)
    ensures 20021 * (a % 65536) % 65536 == 20021 * a % 65536
  {
    Multiple(20021 * (a / 65536), 20021 * (a % 65536));
  }

  lemma Wraps(x: nat, y: nat, i: nat, z: nat, t: nat)
    requires x % 65536 == y
    ensures (0x4E35 * x + 1) % 0x1_0000 == (20021 * y % 65536 + 1) % 65536
    ensures 0x15A * x % 0x1_0000 == 346 * y % 65536
    ensures (0x15A * x % 0x1_0000 + t + 0x4E35 * (z + i)) % 0x1_0000 ==
            (t + (20021 * ((z + i) % 65536) % 65536 + 346 * y) % 65536) % 65536
  {
    var h := x / 65536;
    assert x == 65536 * h + y;
    Multiple(20021 * h, 20021 * y + 1);
    Nested(20021 * y, 1);
    Multiple(346 * h, 346 * y);
    NestedTimes(z + i);
    Sums(20021 * (z + i), 346 * y, t);
  }

  lemma Sums(a: nat, b: nat, t: nat)
    ensures (b % 65536 + t + a) % 65536 == (t + (a % 65536 + b) % 65536) % 65536
  {
    Nested(a, b);
    Nested(a + b, t);
    Nested(b, t + a);
  }

  lemma StepIs(key: seq<byte>, acc: nat, i: nat, r: Registers)
    requires 2 * i + 2 <= |key| && acc < 256 && r.ax < 65536
    ensures var entry := C.Entry(key, acc, i, r.ax);
            var next := Code(r, i, Word(Xor(key[2 * i], acc), Xor(key[2 * i + 1], acc)));
            && entry.1 == next.ax < 65536
            && C.Mix(C.Sweep(r.si, r.dx, r.inter), i, entry) == C.Sweep(next.si, next.dx, next.inter)
  {
    hide Xor;
    var high, low := Xor(key[2 * i], acc), Xor(key[2 * i + 1], acc);
    XorIsByte(key[2 * i], acc);
    XorIsByte(key[2 * i + 1], acc);
    WordIs(high, low);
    var long, word := C.KeyWord(key, acc, i), Word(high, low);
    XorWraps(r.ax, long);
    C.WordsXor(r.ax, word);
    Wraps(Xor(r.ax, long), Xor(r.ax, word), i, r.dx, r.si);
    var next := Code(r, i, word);
    XorAssoc(r.inter, next.ax, next.dx);
  }

  lemma {:induction false} AssembleIs(key: seq<byte>, acc: nat, i: nat, r: Registers)
    requires 2 * i <= |key| && acc < 256 && r.ax < 65536
    ensures var end := Assemble(key, acc, i, r);
            C.DirectSweep(key, acc, i, r.ax, C.Sweep(r.si, r.dx, r.inter)) == C.Sweep(end.si, end.dx, end.inter)
    decreases |key| - 2 * i
  {
    if 2 * i + 2 <= |key| {
      hide Xor, C.Entry, C.Mix, Code;
      StepIs(key, acc, i, r);
      AssembleIs(key, acc, i + 1, Code(r, i, Word(Xor(key[2 * i], acc), Xor(key[2 * i + 1], acc))));
    }
  }

  /** The program's decryption, with its precomputed tables left out or not, is PC1. */
  lemma {:induction false} DecryptionIsPc1(key: seq<byte>, s: C.State, cipher: seq<byte>)
    requires C.InRange(s)
    ensures C.Decrypt(key, s, cipher).0 == Decrypt(key, s.acc, s.y, s.z, cipher)
    decreases |cipher|
  {
    if cipher != [] {
      hide Xor, Assemble, C.DirectSweep;
      AssembleIs(key, s.acc, 0, Registers(0, s.y, s.z, 0));
      DecryptionIsPc1(key, C.DecryptByte(key, s, cipher[0]).1, cipher[1..]);
    }
  }

  // ---- known bytes ----

  lemma Sixteenfold(x: nat)
    ensures DoubleN(x, 4) == 16 * x
  {
    assert DoubleN(x, 1) == 2 * x;
    assert DoubleN(x, 2) == 4 * x;
    assert DoubleN(x, 3) == 8 * x;
  }

  /** Exclusive or goes digit by digit. */
  lemma Digits(a: nat, b: nat, c: nat, d: nat)
    requires b < 16 && d < 16
    ensures Xor(16 * a + b, 16 * c + d) == 16 * Xor(a, c) + Xor(b, d)
  {
    hide Xor;
    Sixteenfold(1);
    Sixteenfold(a);
    Sixteenfold(c);
    Sixteenfold(Xor(a, c));
    XorBound(b, d, 4);
    XorDisjoint(a, b, 4);
    XorDisjoint(c, d, 4);
    XorSwap(16 * a, b, 16 * c, d);
    XorDoubled(a, c, 4);
    XorDisjoint(Xor(a, c), Xor(b, d), 4);
  }

  /** One more bit below. */
  lemma NextBit(a: nat, b: nat, c: nat, p: nat, q: nat)
    requires Xor(a, b) == c && p < 2 && q < 2
    ensures Xor(2 * a + p, 2 * b + q) == 2 * c + if p == q then 0 else 1
  {
    XorOfHalves(a, b, p, q);
  }

  /** One more digit below. */
  lemma NextDigit(a: nat, b: nat, c: nat, d: nat, e: nat, f: nat)
    requires Xor(a, b) == c && Xor(d, e) == f && d < 16 && e < 16
    ensures Xor(16 * a + d, 16 * b + e) == 16 * c + f
  {
    hide Xor;
    Digits(a, d, b, e);
  }

  lemma KnownBits()
    ensures Xor(0, 1) == 1 && Xor(1, 0) == 1 && Xor(1, 3) == 2 && Xor(0, 6) == 6
  {
    XorZero(1);
    XorZero(6);
    hide Xor;
    NextBit(0, 1, 1, 1, 1);
  }

  lemma KnownDigits()
    ensures Xor(4, 12) == 8 && Xor(1, 13) == 12 && Xor(5, 3) == 6 && Xor(7, 13) == 10
  {
    hide Xor;
    KnownBits();
    NextBit(1, 3, 2, 0, 0);
    NextBit(2, 6, 4, 0, 0);
    NextBit(0, 6, 6, 1, 1);
    NextBit(1, 0, 1, 0, 1);
    NextBit(2, 1, 3, 1, 1);
    NextBit(1, 3, 2, 1, 0);
    NextBit(3, 6, 5, 1, 1);
  }

  lemma MoreDigits()
    ensures Xor(6, 10) == 12 && Xor(1, 12) == 13 && Xor(15, 3) == 12 && Xor(13, 4) == 9
  {
    hide Xor;
    KnownBits();
    NextBit(0, 1, 1, 1, 0);
    NextBit(1, 2, 3, 1, 1);
    NextBit(3, 5, 6, 0, 0);
    NextBit(0, 6, 6, 1, 0);
    NextBit(1, 0, 1, 1, 0);
    NextBit(3, 0, 3, 1, 1);
    NextBit(7, 1, 6, 1, 1);
    NextBit(1, 0, 1, 1, 1);
    NextBit(3, 1, 2, 0, 0);
    NextBit(6, 2, 4, 1, 0);
  }

  lemma OneWord(key: seq<byte>, acc: nat, r: Registers)
    requires |key| == 2
    ensures Assemble(key, acc, 0, r) == Code(r, 0, Word(Xor(key[0], acc), Xor(key[1], acc)))
  {
    hide Xor, Code;
    var next := Code(r, 0, Word(Xor(key[0], acc), Xor(key[1], acc)));
    assert Assemble(key, acc, 1, next) == next;
  }

  /** A word of key from known exclusive ors. */
  lemma CodeIs(r: Registers, word: nat, ax: nat, dx: nat, inter: nat)
    requires r.ax == r.inter == 0
    requires ax == (20021 * word % 65536 + 1) % 65536
    requires dx == (r.si + (20021 * (r.dx % 65536) % 65536 + 346 * word) % 65536) % 65536
    requires Xor(ax, dx) == inter
    ensures Code(r, 0, word) == Registers(ax, 346 * word % 65536, dx, inter)
  {
    XorZero(word);
    XorZero(inter);
    hide Xor;
  }

  /** The first two key bytes of the key "AA", the second after 0xCD; that one depends on signed characters. */
  lemma KnownKeyBytes(a: nat, acc: nat, si: nat)
    requires a == 0x41 && acc == 0xCD && si == 0x31DA
    ensures Word(a, a) == 0x4141 && Word(Xor(a, acc), Xor(a, acc)) == 0x8B8C
    ensures Code(Registers(0, 0, 0, 0), 0, Word(a, a)) == Registers(0x5076, si, si, 0x61AC)
    ensures Code(Registers(0, si, si, 0), 0, Word(Xor(a, acc), Xor(a, acc))) == Registers(0x8BFD, 0x9B38, 0x8B34, 0xC9)
    ensures Xor(0x61, 0xAC) == acc
  {
    hide Xor, Code;
    KnownBits();
    KnownDigits();
    MoreDigits();
    NextDigit(4, 12, 8, 1, 13, 12);
    NextDigit(5, 3, 6, 0, 1, 1);
    NextDigit(0x50, 0x31, 0x61, 7, 13, 10);
    NextDigit(0x507, 0x31D, 0x61A, 6, 10, 12);
    CodeIs(Registers(0, 0, 0, 0), 0x4141, 0x5076, 0x31DA, 0x61AC);
    XorSelf(0x8B);
    NextDigit(0x8B, 0x8B, 0, 15, 3, 12);
    NextDigit(0x8BF, 0x8B3, 0xC, 13, 4, 9);
    CodeIs(Registers(0, si, si, 0), 0x8B8C, 0x8BFD, 0x8B34, 0xC9);
    NextDigit(6, 10, 12, 1, 12, 13);
  }

  /** Two zero bytes decrypted with that key. */
  lemma KnownPlain(key: seq<byte>, a: nat, acc: nat, si: nat)
    requires key == [a, a] && a == 0x41 && acc == 0xCD && si == 0x31DA
    ensures C.Decrypt(key, C.START, [0, 0]).0 == [acc, 0xC9]
  {
    hide Xor, Code, Assemble, Word, C.Decrypt;
    KnownKeyBytes(a, acc, si);
    XorZero(a);
    XorZero(acc);
    XorZero(0xC9);
    OneWord(key, 0, Registers(0, 0, 0, 0));
    OneWord(key, acc, Registers(0, si, si, 0));
    DecryptionIsPc1(key, C.START, [0, 0]);
    assert [0, 0][1..] == [0] && [0][1..] == [];
    assert Decrypt(key, acc, si, si, [0]) == [0xC9] + [];
    assert Decrypt(key, 0, 0, 0, [0, 0]) == [acc] + Decrypt(key, acc, si, si, [0]);
  }
}
