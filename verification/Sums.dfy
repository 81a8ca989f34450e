/** Sums of a natural-number weight over a sequence. */
module Sums {
  function Total<T>(f: T -> nat, s: seq<T>): nat {
    if s == [] then 0 else f(s[0]) + Total(f, s[1..])
  }

  lemma {:induction false} TotalConcat<T>(f: T -> nat, a: seq<T>, b: seq<T>)
    ensures Total(f, a + b) == Total(f, a) + Total(f, b)
  {
    if a == [] {
      assert a + b == b;
    } else {
      TotalConcat(f, a[1..], b);
      assert (a + b)[1..] == a[1..] + b;
    }
  }

  lemma TotalOne<T>(f: T -> nat, x: T)
    ensures Total(f, [x]) == f(x)
  {
    assert [x][1..] == [];
  }

  lemma TotalAppend<T>(f: T -> nat, s: seq<T>, x: T)
    ensures Total(f, s + [x]) == Total(f, s) + f(x)
  {
    TotalConcat(f, s, [x]);
    TotalOne(f, x);
  }

  lemma {:induction false} TotalUpdate<T>(f: T -> nat, s: seq<T>, i: nat, x: T)
    requires i < |s|
    ensures Total(f, s[i := x]) + f(s[i]) == Total(f, s) + f(x)
  {
    var t := s[i := x];
    if i == 0 {
      assert t[1..] == s[1..];
    } else {
      TotalUpdate(f, s[1..], i - 1, x);
      assert t[1..] == s[1..][i - 1 := x];
    }
  }

  lemma {:induction false} TotalAtLeast<T>(f: T -> nat, s: seq<T>, i: nat)
    requires i < |s|
    ensures f(s[i]) <= Total(f, s)
  {
    if i > 0 {
      TotalAtLeast(f, s[1..], i - 1);
    }
  }

  /** A positive total is due to some element. */
  lemma {:induction false} TotalPositive<T>(f: T -> nat, s: seq<T>) returns (i: nat)
    requires Total(f, s) > 0
    ensures i < |s| && f(s[i]) > 0
  {
    if f(s[0]) > 0 {
      i := 0;
    } else {
      i := TotalPositive(f, s[1..]);
      i := i + 1;
    }
  }

  lemma {:induction false} TotalZero<T>(f: T -> nat, s: seq<T>)
    requires forall i :: 0 <= i < |s| ==> f(s[i]) == 0
    ensures Total(f, s) == 0
  {
    if s != [] {
      TotalZero(f, s[1..]);
    }
  }

  lemma {:induction false} TotalSame<T>(f: T -> nat, g: T -> nat, s: seq<T>, t: seq<T>)
    requires |s| == |t| && forall i :: 0 <= i < |s| ==> f(s[i]) == g(t[i])
    ensures Total(f, s) == Total(g, t)
  {
    if s != [] {
      TotalSame(f, g, s[1..], t[1..]);
    }
  }
}
