/** Bytes, powers of two, and values that may be absent. */
module Bytes {
  type byte = b: int | 0 <= b < 256

  datatype Option<+T> = None | Some(value: T) {
    predicate IsFailure() { None? }
    function PropagateFailure<U>(): Option<U>
      requires None?
    {
      None
    }
    function Extract(): T
      requires Some?
    {
      value
    }
  }

  function Zeros(n: nat): (z: seq<byte>)
    ensures |z| == n
  {
    seq(n, _ => 0)
  }

  /** The number some bytes stand for, lowest byte first. */
  function LittleEndian(bytes: seq<byte>): nat {
    if bytes == [] then 0 else bytes[0] + 256 * LittleEndian(bytes[1..])
  }

  lemma FourBytes(a: byte, b: byte, c: byte, d: byte)
    ensures LittleEndian([a, b, c, d]) == a + 256 * (b + 256 * (c + 256 * d))
  {
    assert [a, b, c, d][1..] == [b, c, d] && [b, c, d][1..] == [c, d] && [c, d][1..] == [d] && [d][1..] == [];
    assert LittleEndian([d]) == d;
    assert LittleEndian([c, d]) == c + 256 * d;
    assert LittleEndian([b, c, d]) == b + 256 * (c + 256 * d);
  }

  function Pow2(n: nat): (p: nat)
    ensures p >= 1
  {
    if n == 0 then 1 else 2 * Pow2(n - 1)
  }

  /** Quotient and remainder are determined by the usual equation. */
  lemma DivisionIs(x: int, d: nat, q: int, r: int)
    requires d > 0 && x == q * d + r && 0 <= r < d
    ensures x / d == q && x % d == r
  {
    var k := x / d - q;
    assert x == (x / d) * d + x % d;
    assert k * d == (x / d) * d - q * d;
    SmallMultiple(k, d);
  }

  lemma SmallMultiple(k: int, d: int)
    requires 0 - d < k * d < d
    ensures k == 0
  {
    Multiples(k, d);
  }

  lemma Multiples(k: int, d: nat)
    ensures k >= 1 ==> k * d >= d
    ensures k <= -1 ==> k * d <= 0 - d
  {
    if k >= 1 {
      assert k * d == (k - 1) * d + d;
    } else if k <= -1 {
      assert k * d == (k + 1) * d - d;
    }
  }

  lemma Pow2Plus(n: nat, k: nat)
    ensures Pow2(n + k) == Pow2(n) * Pow2(k)
  {
    if k > 0 {
      Pow2Plus(n, k - 1);
      Doubling(Pow2(n), Pow2(k - 1));
    }
  }

  lemma Doubling(a: nat, b: nat)
    ensures 2 * (a * b) == a * (2 * b)
  {
  }

  lemma SubSlice<T>(s: seq<T>, a: nat, b: nat, i: nat, j: nat)
    requires a <= b <= |s| && i <= j <= b - a
    ensures s[a..b][i..j] == s[a + i..a + j]
  {
    var l, r := s[a..b][i..j], s[a + i..a + j];
    assert |l| == |r| && forall k :: 0 <= k < |l| ==> l[k] == r[k];
  }

  lemma ConcatAssociates<T>(a: seq<T>, b: seq<T>, c: seq<T>)
    ensures a + (b + c) == a + b + c
    ensures a + [] == a && [] + a == a
  {
  }
}
