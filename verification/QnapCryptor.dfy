/** The cipher as the object of the program: key tables are computed once, decryption updates the state. */
module QnapCryptor {
  import opened Bytes
  import opened BitOps
  import C = Cryptor

  class Cryptor {
    const secret: seq<byte>
    const given: seq<byte>
    const n: nat
    var k: seq<seq<(nat, nat)>>
    var acc: nat
    var y: nat
    var z: nat

    ghost predicate Valid()
      reads this
    {
      && n == |given| / 2 && given <= secret
      && |k| == 256 && (forall a :: 0 <= a < 256 ==> k[a] == C.Table(given, a, 0, 0))
      && C.InRange(Current())
    }

    ghost function Current(): C.State
      reads this
    {
      C.State(acc, y, z)
    }

    /** A zero is appended to the secret when half its length is even; it is never part of the key. */
    constructor (secret: seq<byte>)
      ensures Valid() && given == secret && Current() == C.START
    {
      given := secret;
      n := |secret| / 2;
      this.secret := if (|secret| / 2) % 2 == 0 then secret + [0] else secret;
      k := [];
      acc, y, z := 0, 0, 0;
      new;
      for a := 0 to 256
        invariant n == |given| / 2 && given <= this.secret && C.InRange(Current()) && given == secret
        invariant acc == y == z == 0
        invariant |k| == a && forall b :: 0 <= b < a ==> k[b] == C.Table(given, b, 0, 0)
      {
        var table := TableForAcc(a);
        k := k + [table];
      }
    }

    method TableForAcc(a: nat) returns (table: seq<(nat, nat)>)
      requires n == |given| / 2 && given <= secret
      ensures table == C.Table(given, a, 0, 0)
    {
      table := [];
      var st := 0;
      for i := 0 to n
        invariant C.Table(given, a, 0, 0) == table + C.Table(given, a, i, st)
      {
        var entry := C.Entry(secret, a, i, st);
        assert entry == C.Entry(given, a, i, st);
        ConcatAssociates(table, [entry], C.Table(given, a, i + 1, entry.1));
        table := table + [entry];
        st := entry.1;
      }
      ConcatAssociates(table, [], []);
    }

    /** The key byte, from the table of the current accumulator; it moves `y` and `z`. */
    method Kdf() returns (key: nat)
      requires Valid()
      modifies this`y, this`z
      ensures (key, Current()) == C.KeyByte(given, old(Current()))
      ensures Valid() && key < 256
    {
      hide C.Table, C.DirectSweep, C.Entry, Xor;
      var table, res := k[acc], 0;
      TableLength(given, acc, 0, 0);
      ghost var st := 0;
      ghost var end := C.DirectSweep(given, acc, 0, 0, C.Sweep(y, z, 0));
      for i := 0 to n
        invariant table[i..] == C.Table(given, acc, i, st)
        invariant end == C.DirectSweep(given, acc, i, st, C.Sweep(y, z, res))
      {
        assert table[i..][0] == table[i] && table[i..][1..] == table[i + 1..];
        SweepStep(given, acc, i, st, table[i..], C.Sweep(y, z, res));
        var previous := y;
        y := table[i].0;
        z := (y + previous + 0x4E35 * (z + i)) % 0x1_0000;
        res := Xor(Xor(res, table[i].1), z);
        st := table[i].1;
      }
      SweepEnds(given, acc, n, st, C.Sweep(y, z, res));
      C.KeyByteInRange(given, old(Current()));
      key := Xor(res / 256, res % 256);
    }

    method DecryptByte(v: byte) returns (r: byte)
      requires Valid()
      modifies this`acc, this`y, this`z
      ensures Valid() && (r, Current()) == C.DecryptByte(given, old(Current()), v)
    {
      hide C.KeyByte, C.Table;
      var key := Kdf();
      XorIsByte(v, key);
      r := Xor(v, key) % 256;
      XorIsByte(acc, r);
      acc := Xor(acc, r);
    }

    method DecryptChunk(chunk: seq<byte>) returns (plain: seq<byte>)
      requires Valid()
      modifies this`acc, this`y, this`z
      ensures Valid() && (plain, Current()) == C.Decrypt(given, old(Current()), chunk)
    {
      plain := [];
      for i := 0 to |chunk|
        invariant Valid() && (plain, Current()) == C.Decrypt(given, old(Current()), chunk[..i])
      {
        ghost var was := Current();
        var r := DecryptByte(chunk[i]);
        OneMore(given, old(Current()), chunk, i);
        plain := plain + [r];
      }
      assert chunk[..|chunk|] == chunk;
    }
  }

  lemma SweepStep(secret: seq<byte>, a: nat, i: nat, st: nat, table: seq<(nat, nat)>, s: C.Sweep)
    requires 2 * i + 1 < |secret| && table == C.Table(secret, a, i, st)
    ensures table != [] && table[1..] == C.Table(secret, a, i + 1, table[0].1)
    ensures C.DirectSweep(secret, a, i, st, s) == C.DirectSweep(secret, a, i + 1, table[0].1, C.Mix(s, i, table[0]))
  {
    hide C.Entry, C.Mix;
  }

  lemma SweepEnds(secret: seq<byte>, a: nat, i: nat, st: nat, s: C.Sweep)
    requires i == |secret| / 2
    ensures C.DirectSweep(secret, a, i, st, s) == s
  {
  }

  lemma {:induction false} TableLength(secret: seq<byte>, a: nat, i: nat, st: nat)
    requires 2 * i <= |secret|
    ensures |C.Table(secret, a, i, st)| == |secret| / 2 - i
    decreases |secret| - 2 * i
  {
    if 2 * i + 1 < |secret| {
      TableLength(secret, a, i + 1, C.Entry(secret, a, i, st).1);
    }
  }

  lemma OneMore(secret: seq<byte>, s: C.State, chunk: seq<byte>, i: nat)
    requires C.InRange(s) && i < |chunk|
    ensures var (plain, mid) := C.Decrypt(secret, s, chunk[..i]);
            var (r, end) := C.DecryptByte(secret, mid, chunk[i]);
            C.Decrypt(secret, s, chunk[..i + 1]) == (plain + [r], end)
  {
    assert chunk[..i + 1] == chunk[..i] + [chunk[i]];
    C.DecryptConcat(secret, s, chunk[..i], [chunk[i]]);
    JustOne(secret, C.Decrypt(secret, s, chunk[..i]).1, chunk[i]);
  }

  lemma JustOne(secret: seq<byte>, s: C.State, v: byte)
    requires C.InRange(s)
    ensures var (r, end) := C.DecryptByte(secret, s, v); C.Decrypt(secret, s, [v]) == ([r], end)
  {
    var (r, end) := C.DecryptByte(secret, s, v);
    assert [v][1..] == [];
    assert C.Decrypt(secret, end, []) == ([], end);
    ConcatAssociates([r], [], []);
  }
}
