/** Exclusive or on natural numbers of any size, bit by bit. */
module BitOps {
  function Xor(a: nat, b: nat): nat {
    if a == 0 && b == 0 then 0 else 2 * Xor(a / 2, b / 2) + if a % 2 == b % 2 then 0 else 1
  }

  lemma XorStep(a: nat, b: nat)
    ensures Xor(a, b) / 2 == Xor(a / 2, b / 2) && Xor(a, b) % 2 == if a % 2 == b % 2 then 0 else 1
  {
  }

  lemma XorOfHalves(a: nat, b: nat, p: nat, q: nat)
    requires p < 2 && q < 2
    ensures Xor(2 * a + p, 2 * b + q) == 2 * Xor(a, b) + if p == q then 0 else 1
  {
    assert (2 * a + p) / 2 == a && (2 * b + q) / 2 == b;
    assert (2 * a + p) % 2 == p && (2 * b + q) % 2 == q;
  }

  lemma {:induction false} XorComm(a: nat, b: nat)
    ensures Xor(a, b) == Xor(b, a)
    decreases a + b
  {
    if a != 0 || b != 0 {
      XorComm(a / 2, b / 2);
    }
  }

  lemma {:induction false} XorAssoc(a: nat, b: nat, c: nat)
    ensures Xor(Xor(a, b), c) == Xor(a, Xor(b, c))
    decreases a + b + c
  {
    if a != 0 || b != 0 || c != 0 {
      var u, v := Xor(Xor(a, b), c), Xor(a, Xor(b, c));
      XorAssoc(a / 2, b / 2, c / 2);
      assert u / 2 == v / 2 by {
        XorStep(a, b);
        XorStep(b, c);
        XorStep(Xor(a, b), c);
        XorStep(a, Xor(b, c));
      }
      assert u % 2 == v % 2 by {
        XorStep(a, b);
        XorStep(b, c);
        XorStep(Xor(a, b), c);
        XorStep(a, Xor(b, c));
      }
    }
  }

  lemma {:induction false} XorZero(a: nat)
    ensures Xor(a, 0) == a && Xor(0, a) == a
  {
    if a != 0 {
      XorZero(a / 2);
    }
  }

  lemma {:induction false} XorSelf(a: nat)
    ensures Xor(a, a) == 0
  {
    if a != 0 {
      XorSelf(a / 2);
    }
  }

  lemma XorCancels(a: nat, b: nat)
    ensures Xor(Xor(a, b), b) == a && Xor(b, Xor(b, a)) == a
  {
    XorAssoc(a, b, b);
    XorAssoc(b, b, a);
    XorSelf(b);
    XorZero(a);
  }

  lemma XorInjective(a: nat, b: nat, c: nat)
    ensures Xor(a, c) == Xor(b, c) ==> a == b
    ensures Xor(a, b) == 0 ==> a == b
  {
    XorCancels(a, c);
    XorCancels(b, c);
    XorCancels(a, b);
    XorZero(b);
  }

  /** The terms of a sum can be paired differently. */
  lemma XorSwap(a: nat, b: nat, c: nat, d: nat)
    ensures Xor(Xor(a, b), Xor(c, d)) == Xor(Xor(a, c), Xor(b, d))
  {
    XorAssoc(a, b, Xor(c, d));
    XorAssoc(b, c, d);
    XorComm(b, c);
    XorAssoc(c, b, d);
    XorAssoc(a, c, Xor(b, d));
  }

  lemma XorCommon(a: nat, b: nat, p: nat)
    ensures Xor(Xor(a, p), Xor(b, p)) == Xor(a, b)
    ensures Xor(Xor(a, p), b) == Xor(Xor(a, b), p)
    ensures Xor(a, Xor(b, p)) == Xor(Xor(a, b), p)
  {
    XorSwap(a, p, b, p);
    XorSelf(p);
    XorZero(Xor(a, b));
    XorAssoc(a, p, b);
    XorComm(p, b);
    XorAssoc(a, b, p);
  }

  /** `x` with `n` zero bits below it. */
  function DoubleN(x: nat, n: nat): nat {
    if n == 0 then x else 2 * DoubleN(x, n - 1)
  }

  lemma {:induction false} DoubleTwice(x: nat, m: nat, n: nat)
    ensures DoubleN(DoubleN(x, m), n) == DoubleN(x, m + n)
  {
    if n > 0 {
      DoubleTwice(x, m, n - 1);
    }
  }

  lemma {:induction false} XorBound(a: nat, b: nat, n: nat)
    requires a < DoubleN(1, n) && b < DoubleN(1, n)
    ensures Xor(a, b) < DoubleN(1, n)
  {
    if n > 0 {
      XorBound(a / 2, b / 2, n - 1);
      XorStep(a, b);
    }
  }

  /** Numbers that share no bits are added. */
  lemma {:induction false} XorDisjoint(h: nat, l: nat, n: nat)
    requires l < DoubleN(1, n)
    ensures Xor(DoubleN(h, n), l) == DoubleN(h, n) + l
  {
    if n == 0 {
      XorZero(h);
    } else {
      XorDisjoint(h, l / 2, n - 1);
      XorOfHalves(DoubleN(h, n - 1), l / 2, 0, l % 2);
    }
  }

  lemma {:induction false} XorDoubled(a: nat, b: nat, n: nat)
    ensures Xor(DoubleN(a, n), DoubleN(b, n)) == DoubleN(Xor(a, b), n)
  {
    if n > 0 {
      XorDoubled(a, b, n - 1);
      XorOfHalves(DoubleN(a, n - 1), DoubleN(b, n - 1), 0, 0);
    }
  }

  lemma Double8(x: nat)
    ensures DoubleN(x, 8) == 256 * x
  {
    assert DoubleN(x, 1) == 2 * x;
    assert DoubleN(x, 2) == 4 * x;
    assert DoubleN(x, 3) == 8 * x;
    assert DoubleN(x, 4) == 16 * x;
    assert DoubleN(x, 5) == 32 * x;
    assert DoubleN(x, 6) == 64 * x;
    assert DoubleN(x, 7) == 128 * x;
  }

  lemma XorLowByte(h: nat, l: nat)
    requires l < 256
    ensures Xor(256 * h, l) == 256 * h + l
  {
    Double8(1);
    Double8(h);
    XorDisjoint(h, l, 8);
  }

  lemma XorHighBytes(a: nat, b: nat)
    ensures Xor(256 * a, 256 * b) == 256 * Xor(a, b)
  {
    Double8(a);
    Double8(b);
    Double8(Xor(a, b));
    XorDoubled(a, b, 8);
  }

  lemma XorIsByte(a: nat, b: nat)
    requires a < 256 && b < 256
    ensures Xor(a, b) < 256
  {
    Double8(1);
    XorBound(a, b, 8);
  }

  /** Exclusive or acts separately on the low byte and on the rest. */
  lemma XorBytes(ah: nat, al: nat, bh: nat, bl: nat)
    requires al < 256 && bl < 256
    ensures Xor(al, bl) < 256
    ensures Xor(256 * ah + al, 256 * bh + bl) == 256 * Xor(ah, bh) + Xor(al, bl)
  {
    hide Xor;
    XorIsByte(al, bl);
    XorLowByte(ah, al);
    XorLowByte(bh, bl);
    XorSwap(256 * ah, al, 256 * bh, bl);
    XorHighBytes(ah, bh);
    XorLowByte(Xor(ah, bh), Xor(al, bl));
  }
}
