/** The stateful stream cipher of firmware images: PC1 with a key table for each value of the accumulator. */
module Cryptor {
  import opened Bytes
  import opened BitOps

  /** Accumulator and the two running values. */
  datatype State = State(acc: nat, y: nat, z: nat)

  const START := State(0, 0, 0)

  predicate InRange(s: State) {
    s.acc < 256 && s.y < 0x1_0000 && s.z < 0x1_0000
  }

  function Promote(c: nat): int {
    if c < 0x80 then c else c - 0x101
  }

  function Lcg(x: nat): nat {
    (0x4E35 * x + 1) % 0x1_0000
  }

  /** The `i`-th word of the key, for a value of the accumulator. */
  function KeyWord(secret: seq<byte>, a: nat, i: nat): nat
    requires 2 * i + 1 < |secret|
  {
    (Promote(Xor(secret[2 * i], a)) * 256 + Xor(secret[2 * i + 1], a)) % 0x1_0000_0000
  }

  /** The table entry for word `i` when the previous entries have led to `st`. */
  function Entry(secret: seq<byte>, a: nat, i: nat, st: nat): (nat, nat)
    requires 2 * i + 1 < |secret|
  {
    var x := Xor(st, KeyWord(secret, a, i));
    (0x15A * x % 0x1_0000, Lcg(x))
  }

  /** The key table for one value of the accumulator, from word `i` on. */
  function Table(secret: seq<byte>, a: nat, i: nat, st: nat): seq<(nat, nat)>
    requires 2 * i <= |secret|
    decreases |secret| - 2 * i
  {
    if 2 * i + 1 >= |secret| then [] else [Entry(secret, a, i, st)] + Table(secret, a, i + 1, Entry(secret, a, i, st).1)
  }

  // ---- the key byte, computed directly ----

  datatype Sweep = Sweep(y: nat, z: nat, res: nat)

  function Mix(s: Sweep, i: nat, entry: (nat, nat)): Sweep {
    var z := (entry.0 + s.y + 0x4E35 * (s.z + i)) % 0x1_0000;
    Sweep(entry.0, z, Xor(Xor(s.res, entry.1), z))
  }

  /** All words of the key in one pass, without a table. */
  function DirectSweep(secret: seq<byte>, a: nat, i: nat, st: nat, s: Sweep): Sweep
    requires 2 * i <= |secret|
    decreases |secret| - 2 * i
  {
    if 2 * i + 1 >= |secret| then s
    else DirectSweep(secret, a, i + 1, Entry(secret, a, i, st).1, Mix(s, i, Entry(secret, a, i, st)))
  }

  function Fold(res: nat): nat {
    Xor(res / 256, res % 256)
  }

  /** The next key byte, and the state it leaves. */
  function KeyByte(secret: seq<byte>, s: State): (nat, State) {
    var end := DirectSweep(secret, s.acc, 0, 0, Sweep(s.y, s.z, 0));
    (Fold(end.res), State(s.acc, end.y, end.z))
  }

  lemma WordsXor(a: nat, b: nat)
    requires a < 0x1_0000 && b < 0x1_0000
    ensures Xor(a, b) < 0x1_0000
  {
    Double8(1);
    Double8(256);
    DoubleTwice(1, 8, 8);
    XorBound(a, b, 16);
  }

  lemma {:induction false} SweepInRange(secret: seq<byte>, a: nat, i: nat, st: nat, s: Sweep)
    requires 2 * i <= |secret| && s.y < 0x1_0000 && s.z < 0x1_0000 && s.res < 0x1_0000
    ensures var end := DirectSweep(secret, a, i, st, s);
            end.y < 0x1_0000 && end.z < 0x1_0000 && end.res < 0x1_0000
    decreases |secret| - 2 * i
  {
    if 2 * i + 1 < |secret| {
      var entry := Entry(secret, a, i, st);
      var next := Mix(s, i, entry);
      WordsXor(s.res, entry.1);
      WordsXor(Xor(s.res, entry.1), next.z);
      SweepInRange(secret, a, i + 1, entry.1, next);
    }
  }

  lemma KeyByteInRange(secret: seq<byte>, s: State)
    requires InRange(s)
    ensures KeyByte(secret, s).0 < 256 && InRange(KeyByte(secret, s).1)
  {
    SweepInRange(secret, s.acc, 0, 0, Sweep(s.y, s.z, 0));
    var res := DirectSweep(secret, s.acc, 0, 0, Sweep(s.y, s.z, 0)).res;
    XorIsByte(res / 256, res % 256);
  }

  // ---- decryption and its inverse ----

  /** The accumulator follows the plain text. */
  function Absorb(s: State, plain: nat): State {
    s.(acc := Xor(s.acc, plain))
  }

  function DecryptByte(secret: seq<byte>, s: State, c: byte): (r: (byte, State))
    requires InRange(s)
    ensures InRange(r.1)
  {
    KeyByteInRange(secret, s);
    var (k, next) := KeyByte(secret, s);
    XorIsByte(c, k);
    XorIsByte(s.acc, Xor(c, k));
    (Xor(c, k), Absorb(next, Xor(c, k)))
  }

  function EncryptByte(secret: seq<byte>, s: State, p: byte): (r: (byte, State))
    requires InRange(s)
    ensures InRange(r.1)
  {
    KeyByteInRange(secret, s);
    var (k, next) := KeyByte(secret, s);
    XorIsByte(p, k);
    XorIsByte(s.acc, p);
    (Xor(p, k), Absorb(next, p))
  }

  function Decrypt(secret: seq<byte>, s: State, cipher: seq<byte>): (r: (seq<byte>, State))
    requires InRange(s)
    ensures InRange(r.1) && |r.0| == |cipher|
    decreases |cipher|
  {
    if cipher == [] then ([], s)
    else
      var (p, next) := DecryptByte(secret, s, cipher[0]);
      var (rest, end) := Decrypt(secret, next, cipher[1..]);
      ([p] + rest, end)
  }

  function Encrypt(secret: seq<byte>, s: State, plain: seq<byte>): (r: (seq<byte>, State))
    requires InRange(s)
    ensures InRange(r.1) && |r.0| == |plain|
    decreases |plain|
  {
    if plain == [] then ([], s)
    else
      var (c, next) := EncryptByte(secret, s, plain[0]);
      var (rest, end) := Encrypt(secret, next, plain[1..]);
      ([c] + rest, end)
  }

  /** Decrypting a byte undoes encrypting it, and leaves the same state. */
  lemma ByteRoundTrip(secret: seq<byte>, s: State, b: byte)
    requires InRange(s)
    ensures DecryptByte(secret, s, EncryptByte(secret, s, b).0) == (b, EncryptByte(secret, s, b).1)
    ensures EncryptByte(secret, s, DecryptByte(secret, s, b).0) == (b, DecryptByte(secret, s, b).1)
  {
    KeyByteInRange(secret, s);
    XorCancels(b, KeyByte(secret, s).0);
  }

  /** From every state, decryption and encryption are inverse to each other on texts of any length. */
  lemma {:induction false} RoundTrip(secret: seq<byte>, s: State, text: seq<byte>)
    requires InRange(s)
    ensures Decrypt(secret, s, Encrypt(secret, s, text).0) == (text, Encrypt(secret, s, text).1)
    ensures Encrypt(secret, s, Decrypt(secret, s, text).0) == (text, Decrypt(secret, s, text).1)
    decreases |text|
  {
    if text != [] {
      ByteRoundTrip(secret, s, text[0]);
      RoundTrip(secret, EncryptByte(secret, s, text[0]).1, text[1..]);
      RoundTrip(secret, DecryptByte(secret, s, text[0]).1, text[1..]);
      assert text == [text[0]] + text[1..];
      assert Encrypt(secret, s, text).0[1..] == Encrypt(secret, EncryptByte(secret, s, text[0]).1, text[1..]).0;
      assert Decrypt(secret, s, text).0[1..] == Decrypt(secret, DecryptByte(secret, s, text[0]).1, text[1..]).0;
    }
  }

  /** Hence decryption is one-to-one, and every plain text of a length is decrypted from some text of that length. */
  lemma DecryptionIsBijective(secret: seq<byte>, s: State, a: seq<byte>, b: seq<byte>)
    requires InRange(s)
    ensures Decrypt(secret, s, a).0 == Decrypt(secret, s, b).0 ==> a == b
    ensures exists c :: |c| == |a| && Decrypt(secret, s, c).0 == a
  {
    RoundTrip(secret, s, a);
    RoundTrip(secret, s, b);
    assert |Encrypt(secret, s, a).0| == |a|;
  }

  /** Chunks may be decrypted one after the other. */
  lemma {:induction false} DecryptConcat(secret: seq<byte>, s: State, a: seq<byte>, b: seq<byte>)
    requires InRange(s)
    ensures var (x, mid) := Decrypt(secret, s, a);
            var (y, end) := Decrypt(secret, mid, b);
            Decrypt(secret, s, a + b) == (x + y, end)
    decreases |a|
  {
    if a == [] {
      ConcatAssociates(b, [], []);
      ConcatAssociates(Decrypt(secret, s, b).0, [], []);
    } else {
      var (p, next) := DecryptByte(secret, s, a[0]);
      DecryptConcat(secret, next, a[1..], b);
      assert (a + b)[1..] == a[1..] + b;
      var (x, mid) := Decrypt(secret, next, a[1..]);
      ConcatAssociates([p], x, Decrypt(secret, mid, b).0);
    }
  }
}
