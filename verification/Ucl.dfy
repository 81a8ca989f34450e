/**
 NRV2B decompression.  Single bits and whole bytes are interleaved in one stream: eight bits are
 fetched together, at the moment the first of them is needed, and bytes are read past them.
 */
module Ucl {
  import opened Bytes

  const END_OF_STREAM_MARKER := 0xFF_FF_FF_FF

  // ---- reading ----

  datatype ReaderState = ReaderState(data: seq<byte>, index: nat, bb: nat, bc: nat)

  type Reader = r: ReaderState | r.index <= |r.data| witness ReaderState([], 0, 0, 0)

  /** Bits that can still be delivered. */
  function Remaining(r: Reader): nat {
    8 * (|r.data| - r.index) + r.bc
  }

  function GetBit(r: Reader): (res: Option<(Reader, nat)>)
    ensures res.Some? ==> res.value.0.data == r.data && Remaining(res.value.0) == Remaining(r) - 1
    ensures res.Some? ==> res.value.1 < 2
  {
    if r.bc > 0 then Some((r.(bc := r.bc - 1), r.bb / Pow2(r.bc - 1) % 2))
    else if r.index >= |r.data| then None
    else Some((r.(index := r.index + 1, bb := r.data[r.index], bc := 7), r.data[r.index] / Pow2(7) % 2))
  }

  function ReadByte(r: Reader): (res: Option<(Reader, byte)>)
    ensures res.Some? ==> res.value.0.data == r.data && Remaining(res.value.0) == Remaining(r) - 8
  {
    if r.index >= |r.data| then None else Some((r.(index := r.index + 1), r.data[r.index]))
  }

  // ---- decoding ----

  /** How far back a match lies. */
  type Distance = n: int | n >= 1 witness 1

  /** Bits of a number, most significant first, each followed by a flag that is set on the last one. */
  function Gamma(r: Reader, acc: nat): (res: Option<(Reader, nat)>)
    ensures res.Some? ==> res.value.0.data == r.data && Remaining(res.value.0) < Remaining(r)
    ensures res.Some? ==> 2 * acc <= res.value.1
    decreases Remaining(r)
  {
    var (r1, bit) :- GetBit(r);
    var (r2, last) :- GetBit(r1);
    if last == 1 then Some((r2, 2 * acc + bit)) else Gamma(r2, 2 * acc + bit)
  }

  function MatchLength(r: Reader, offset: Distance): (res: Option<(Reader, nat)>)
    ensures res.Some? ==> res.value.0.data == r.data && Remaining(res.value.0) < Remaining(r)
  {
    var (r1, high) :- GetBit(r);
    var (r2, low) :- GetBit(r1);
    if 2 * high + low != 0 then Some((r2, 2 * high + low + Extra(offset)))
    else
      var (r3, length) :- Gamma(r2, 1);
      Some((r3, length + 2 + Extra(offset)))
  }

  /** A match that lies far back is one byte longer. */
  function Extra(offset: Distance): nat {
    if offset > 0xD00 then 1 else 0
  }

  /** Appends `count` bytes, each the one `offset` places back; source and target may overlap. */
  function CopyMatch(out: seq<byte>, offset: Distance, count: nat): (res: seq<byte>)
    requires offset <= |out|
    ensures |res| == |out| + count
    decreases count
  {
    if count == 0 then out else CopyMatch(out + [out[|out| - offset]], offset, count - 1)
  }

  /** The offset of a match: the previous one, a new one, or none at the end of the stream. */
  function MatchOffset(r: Reader, last: Distance): (res: Option<(Reader, Option<Distance>)>)
    ensures res.Some? ==> res.value.0.data == r.data && Remaining(res.value.0) < Remaining(r)
  {
    var (r1, code) :- Gamma(r, 1);
    if code == 2 then Some((r1, Some(last)))
    else
      var (r2, b) :- ReadByte(r1);
      var offset := (code - 3) * 256 + b;
      var next: Distance := offset + 1;
      Some((r2, if offset == END_OF_STREAM_MARKER then None else Some(next)))
  }

  datatype Progress = Done(out: seq<byte>) | More(r: Reader, out: seq<byte>, last: Distance)

  function StepMatch(r: Reader, out: seq<byte>, last: Distance): (res: Option<Progress>)
    ensures res.Some? && res.value.More? ==> Remaining(res.value.r) < Remaining(r)
  {
    var (r1, offset) :- MatchOffset(r, last);
    if offset == None then Some(Done(out))
    else
      var (r2, length) :- MatchLength(r1, offset.value);
      if offset.value > |out| then None
      else Some(More(r2, CopyMatch(out, offset.value, length + 1), offset.value))
  }

  /** One literal byte or one match. */
  function Step(r: Reader, out: seq<byte>, last: Distance): (res: Option<Progress>)
    ensures res.Some? && res.value.More? ==> Remaining(res.value.r) < Remaining(r)
  {
    var (r1, literal) :- GetBit(r);
    if literal == 1 then
      var (r2, b) :- ReadByte(r1);
      Some(More(r2, out + [b], last))
    else StepMatch(r1, out, last)
  }

  function Decode(r: Reader, out: seq<byte>, last: Distance): Option<seq<byte>>
    decreases Remaining(r)
  {
    var p :- Step(r, out, last);
    match p
    case Done(res) => Some(res)
    case More(r', out', last') => Decode(r', out', last')
  }

  function Decompress(compressed: seq<byte>): Option<seq<byte>> {
    Decode(ReaderState(compressed, 0, 0, 0), [], 1)
  }

  // ---- the layout an encoder produces ----

  /** What is written to the stream, in the order in which it is read back. */
  datatype Symbol = Bit(b: nat) | Byte(v: byte)

  /** The next `n` bits as a number, most significant first, zeros past the end. */
  function Bits(syms: seq<Symbol>, n: nat): (v: nat)
    requires AllBits(syms)
    ensures v < Pow2(n)
  {
    if n == 0 || syms == [] then 0
    else match syms[0]
      case Bit(b) => (if b == 1 then Pow2(n - 1) else 0) + Bits(syms[1..], n - 1)
      case Byte(_) => Bits(syms[1..], n)
  }

  ghost predicate AllBits(syms: seq<Symbol>) {
    forall k :: 0 <= k < |syms| && syms[k].Bit? ==> syms[k].b < 2
  }

  /** The bytes of the stream when `bc` bits of the last bit byte are still unread. */
  function Layout(syms: seq<Symbol>, bc: nat): seq<byte>
    requires AllBits(syms)
  {
    if syms == [] then []
    else match syms[0]
      case Byte(v) => [v] + Layout(syms[1..], bc)
      case Bit(_) =>
        if bc > 0 then Layout(syms[1..], bc - 1)
        else
          assert Pow2(8) == 256 by { assert Pow2(5) == 32; }
          [Bits(syms, 8)] + Layout(syms[1..], 7)
  }

  /** The reader stands before the symbols, followed by bytes that are not part of the stream. */
  ghost predicate Before(r: Reader, syms: seq<Symbol>, tail: seq<byte>) {
    && AllBits(syms)
    && r.data[r.index..] == Layout(syms, r.bc) + tail
    && r.bb % Pow2(r.bc) == Bits(syms, r.bc)
  }

  lemma TopBit(bb: nat, p: nat, b: nat, rest: nat)
    requires p > 0 && bb % (2 * p) == (if b == 1 then p else 0) + rest && b < 2 && rest < p
    ensures bb / p % 2 == b && bb % p == rest
  {
    var q := Halved(bb, p, b, rest);
    DivisionIs(bb, p, 2 * q + b, rest);
    OddOrEven(q, b);
  }

  lemma Halved(bb: nat, p: nat, b: nat, rest: nat) returns (q: nat)
    requires p > 0 && bb % (2 * p) == (if b == 1 then p else 0) + rest && b < 2
    ensures bb == (2 * q + b) * p + rest
  {
    q := Whole(bb, 2 * p);
    Regroup(p, q, b);
  }

  lemma Whole(n: nat, d: nat) returns (q: nat)
    requires d > 0
    ensures n == d * q + n % d
  {
    q := n / d;
  }

  lemma Regroup(p: nat, q: nat, b: nat)
    requires b < 2
    ensures (2 * q + b) * p == (2 * p) * q + (if b == 1 then p else 0)
  {
  }

  lemma OddOrEven(q: nat, b: nat)
    requires b < 2
    ensures (2 * q + b) % 2 == b
  {
  }

  lemma ReadsBit(r: Reader, syms: seq<Symbol>, tail: seq<byte>)
    requires syms != [] && syms[0].Bit? && Before(r, syms, tail)
    ensures GetBit(r).Some?
    ensures GetBit(r).value.1 == syms[0].b && Before(GetBit(r).value.0, syms[1..], tail)
  {
    if r.bc > 0 {
      TopBit(r.bb, Pow2(r.bc - 1), syms[0].b, Bits(syms[1..], r.bc - 1));
    } else {
      var v := r.data[r.index..][0];
      assert v == Bits(syms, 8);
      assert v % Pow2(8) == v;
      TopBit(v, Pow2(7), syms[0].b, Bits(syms[1..], 7));
      assert r.data[r.index + 1..] == r.data[r.index..][1..];
    }
  }

  lemma ReadsByte(r: Reader, syms: seq<Symbol>, tail: seq<byte>)
    requires syms != [] && syms[0].Byte? && Before(r, syms, tail)
    ensures ReadByte(r).Some?
    ensures ReadByte(r).value.1 == syms[0].v && Before(ReadByte(r).value.0, syms[1..], tail)
  {
    assert r.data[r.index..][0] == syms[0].v;
    assert r.data[r.index + 1..] == r.data[r.index..][1..];
  }

  // ---- the encoder the decoder has to undo ----

  /** A literal byte, a match `offset` back of `count` bytes, or a match at the previous offset. */
  datatype Token = Literal(v: byte) | Match(offset: Distance, count: nat) | Repeat(count: nat)

  /** The shortest match there is a code for: two bytes, or three when it lies far back. */
  function Shortest(offset: Distance): nat {
    if offset <= 3328 then 2 else 3
  }

  /** One offset is taken by the end marker. */
  predicate ValidToken(t: Token, size: nat, last: Distance) {
    match t
    case Literal(_) => true
    case Match(offset, count) => ValidMatch(offset, count, size) && offset != 4294967296
    case Repeat(count) => ValidMatch(last, count, size)
  }

  predicate ValidMatch(offset: Distance, count: nat, size: nat) {
    offset <= size && count >= Shortest(offset)
  }

  function OffsetAfter(t: Token, last: Distance): Distance {
    if t.Match? then t.offset else last
  }

  function SizeAfter(t: Token, size: nat): nat {
    size + if t.Literal? then 1 else t.count
  }

  predicate ValidTokens(ts: seq<Token>, size: nat, last: Distance) {
    ts == []
    || (ValidToken(ts[0], size, last) && ValidTokens(ts[1..], SizeAfter(ts[0], size), OffsetAfter(ts[0], last)))
  }

  /** The output after one token. */
  function OutputAfter(t: Token, out: seq<byte>, last: Distance): (res: seq<byte>)
    requires ValidToken(t, |out|, last)
    ensures |res| == SizeAfter(t, |out|)
  {
    match t
    case Literal(v) => out + [v]
    case Match(offset, count) => CopyMatch(out, offset, count)
    case Repeat(count) => CopyMatch(out, last, count)
  }

  /** The meaning of a token list: its Lempel-Ziv expansion. */
  function Expand(ts: seq<Token>, out: seq<byte>, last: Distance): seq<byte>
    requires ValidTokens(ts, |out|, last)
    decreases |ts|
  {
    if ts == [] then out else Expand(ts[1..], OutputAfter(ts[0], out, last), OffsetAfter(ts[0], last))
  }

  function GammaPrefix(v: nat): (syms: seq<Symbol>)
    requires v >= 1
    ensures AllBits(syms)
  {
    if v == 1 then [] else GammaPrefix(v / 2) + [Bit(v % 2), Bit(0)]
  }

  function GammaSymbols(v: nat): (syms: seq<Symbol>)
    requires v >= 2
    ensures AllBits(syms)
  {
    GammaPrefix(v / 2) + [Bit(v % 2), Bit(1)]
  }

  function LengthSymbols(offset: Distance, count: nat): (syms: seq<Symbol>)
    requires count >= Shortest(offset)
    ensures AllBits(syms)
  {
    var length := count + 1 - Shortest(offset);
    if length <= 3 then [Bit(length / 2), Bit(length % 2)]
    else [Bit(0), Bit(0)] + GammaSymbols(length - 2)
  }

  /** A new offset: its high part as a number of at least three, then its low byte. */
  function OffsetSymbols(v: nat): (syms: seq<Symbol>)
    ensures AllBits(syms)
  {
    GammaSymbols(v / 256 + 3) + [Byte(v % 256)]
  }

  function TokenSymbols(t: Token, size: nat, last: Distance): (syms: seq<Symbol>)
    requires ValidToken(t, size, last)
    ensures AllBits(syms)
  {
    match t
    case Literal(v) => [Bit(1), Byte(v)]
    case Match(offset, count) => [Bit(0)] + OffsetSymbols(offset - 1) + LengthSymbols(offset, count)
    case Repeat(count) => [Bit(0)] + GammaSymbols(2) + LengthSymbols(last, count)
  }

  function Symbols(ts: seq<Token>, size: nat, last: Distance): (syms: seq<Symbol>)
    requires ValidTokens(ts, size, last)
    ensures AllBits(syms)
    decreases |ts|
  {
    if ts == [] then [Bit(0)] + OffsetSymbols(4294967295)
    else TokenSymbols(ts[0], size, last) + Symbols(ts[1..], SizeAfter(ts[0], size), OffsetAfter(ts[0], last))
  }

  function Compress(ts: seq<Token>): seq<byte>
    requires ValidTokens(ts, 0, 1)
  {
    Layout(Symbols(ts, 0, 1), 0)
  }

  // ---- round trip ----

  lemma ReadsTwoBits(r: Reader, high: nat, low: nat, rest: seq<Symbol>, tail: seq<byte>) returns (q: Reader)
    requires high < 2 && low < 2 && Before(r, [Bit(high), Bit(low)] + rest, tail)
    ensures GetBit(r).Some? && GetBit(r).value.1 == high
    ensures GetBit(GetBit(r).value.0) == Some((q, low)) && Before(q, rest, tail)
  {
    var syms := [Bit(high), Bit(low)] + rest;
    ReadsBit(r, syms, tail);
    var r1 := GetBit(r).value.0;
    ReadsBit(r1, syms[1..], tail);
    q := GetBit(r1).value.0;
    assert syms[1..][1..] == rest;
  }

  lemma Regrouped(a: seq<Symbol>, b: seq<Symbol>, c: seq<Symbol>, d: seq<Symbol>)
    ensures a + b + c + d == a + (b + (c + d))
    ensures b + c + d == b + (c + d)
  {
  }

  /** The decoder reaches `v` after the prefix of `v`, whatever follows. */
  lemma {:induction false} ReadsPrefix(r: Reader, v: nat, rest: seq<Symbol>, tail: seq<byte>) returns (q: Reader)
    requires v >= 1 && Before(r, GammaPrefix(v) + rest, tail)
    ensures Gamma(r, 1) == Gamma(q, v) && Before(q, rest, tail)
    decreases v, 1
  {
    if v == 1 {
      q := r;
      assert GammaPrefix(v) + rest == rest;
    } else {
      hide *;
      q := ReadsPrefixMore(r, v, rest, tail);
    }
  }

  lemma {:induction false} ReadsPrefixMore(r: Reader, v: nat, rest: seq<Symbol>, tail: seq<byte>) returns (q: Reader)
    requires v >= 2 && Before(r, GammaPrefix(v) + rest, tail)
    ensures Gamma(r, 1) == Gamma(q, v) && Before(q, rest, tail)
    decreases v, 0
  {
    hide *;
    PrefixStep(v);
    var more := [Bit(v % 2), Bit(0)] + rest;
    Regrouped([], GammaPrefix(v / 2), [Bit(v % 2), Bit(0)], rest);
    var p := ReadsPrefix(r, v / 2, more, tail);
    q := ReadsTwoBits(p, v % 2, 0, rest, tail);
    GammaStep(p, q, v % 2, v / 2);
  }

  lemma PrefixStep(v: nat)
    requires v >= 2
    ensures GammaPrefix(v) == GammaPrefix(v / 2) + [Bit(v % 2), Bit(0)]
  {
  }

  lemma GammaStep(p: Reader, q: Reader, bit: nat, acc: nat)
    requires GetBit(p).Some? && GetBit(p).value.1 == bit && GetBit(GetBit(p).value.0) == Some((q, 0))
    ensures Gamma(p, acc) == Gamma(q, 2 * acc + bit)
  {
    hide GetBit;
  }

  lemma ReadsGamma(r: Reader, v: nat, rest: seq<Symbol>, tail: seq<byte>)
    requires v >= 2 && Before(r, GammaSymbols(v) + rest, tail)
    ensures Gamma(r, 1).Some? && Gamma(r, 1).value.1 == v && Before(Gamma(r, 1).value.0, rest, tail)
  {
    var more := [Bit(v % 2), Bit(1)] + rest;
    Regrouped([], GammaPrefix(v / 2), [Bit(v % 2), Bit(1)], rest);
    var p := ReadsPrefix(r, v / 2, more, tail);
    var q := ReadsTwoBits(p, v % 2, 1, rest, tail);
  }

  lemma ReadsShortLength(r: Reader, offset: Distance, length: nat, rest: seq<Symbol>, tail: seq<byte>)
    returns (q: Reader)
    requires 1 <= length <= 3 && Before(r, [Bit(length / 2), Bit(length % 2)] + rest, tail)
    ensures MatchLength(r, offset) == Some((q, length + Extra(offset))) && Before(q, rest, tail)
  {
    q := ReadsTwoBits(r, length / 2, length % 2, rest, tail);
  }

  lemma ReadsLongLength(r: Reader, offset: Distance, length: nat, rest: seq<Symbol>, tail: seq<byte>)
    returns (q: Reader)
    requires length >= 4 && Before(r, [Bit(0), Bit(0)] + (GammaSymbols(length - 2) + rest), tail)
    ensures MatchLength(r, offset) == Some((q, length + Extra(offset))) && Before(q, rest, tail)
  {
    var p := ReadsTwoBits(r, 0, 0, GammaSymbols(length - 2) + rest, tail);
    ReadsGamma(p, length - 2, rest, tail);
    q := Gamma(p, 1).value.0;
  }

  lemma ReadsLength(r: Reader, offset: Distance, count: nat, rest: seq<Symbol>, tail: seq<byte>) returns (q: Reader)
    requires count >= Shortest(offset) && Before(r, LengthSymbols(offset, count) + rest, tail)
    ensures MatchLength(r, offset) == Some((q, count - 1)) && Before(q, rest, tail)
  {
    var length := count - 1 - Extra(offset);
    if length <= 3 {
      q := ReadsShortLength(r, offset, length, rest, tail);
    } else {
      Regrouped([], [Bit(0), Bit(0)], GammaSymbols(length - 2), rest);
      q := ReadsLongLength(r, offset, length, rest, tail);
    }
  }

  lemma ReadsOffset(r: Reader, v: nat, rest: seq<Symbol>, tail: seq<byte>)
    requires Before(r, OffsetSymbols(v) + rest, tail)
    ensures Gamma(r, 1).Some? && Gamma(r, 1).value.1 == v / 256 + 3
    ensures ReadByte(Gamma(r, 1).value.0).Some? && ReadByte(Gamma(r, 1).value.0).value.1 == v % 256
    ensures Before(ReadByte(Gamma(r, 1).value.0).value.0, rest, tail)
  {
    var more := [Byte(v % 256)] + rest;
    assert OffsetSymbols(v) + rest == GammaSymbols(v / 256 + 3) + more;
    ReadsGamma(r, v / 256 + 3, more, tail);
    ReadsByte(Gamma(r, 1).value.0, more, tail);
    assert more[1..] == rest;
  }

  lemma ReadsZero(r: Reader, out: seq<byte>, last: Distance, rest: seq<Symbol>, tail: seq<byte>) returns (q: Reader)
    requires Before(r, [Bit(0)] + rest, tail)
    ensures Step(r, out, last) == StepMatch(q, out, last) && Before(q, rest, tail)
  {
    ReadsBit(r, [Bit(0)] + rest, tail);
    q := GetBit(r).value.0;
    assert ([Bit(0)] + rest)[1..] == rest;
  }

  lemma ReadsNewOffset(r: Reader, last: Distance, v: nat, rest: seq<Symbol>, tail: seq<byte>) returns (q: Reader)
    requires Before(r, OffsetSymbols(v) + rest, tail)
    ensures MatchOffset(r, last) == Some((q, if v == END_OF_STREAM_MARKER then None else Some(v + 1)))
    ensures Before(q, rest, tail)
  {
    ReadsOffset(r, v, rest, tail);
    var (r1, code) := Gamma(r, 1).value;
    var (r2, b) := ReadByte(r1).value;
    assert (code - 3) * 256 + b == v;
    q := r2;
  }

  lemma ReadsLastOffset(r: Reader, last: Distance, rest: seq<Symbol>, tail: seq<byte>) returns (q: Reader)
    requires Before(r, GammaSymbols(2) + rest, tail)
    ensures MatchOffset(r, last) == Some((q, Some(last))) && Before(q, rest, tail)
  {
    ReadsGamma(r, 2, rest, tail);
    q := Gamma(r, 1).value.0;
  }

  lemma ReadsEnd(r: Reader, out: seq<byte>, last: Distance, tail: seq<byte>)
    requires Before(r, [Bit(0)] + OffsetSymbols(4294967295), tail)
    ensures Step(r, out, last) == Some(Done(out))
  {
    var more := OffsetSymbols(END_OF_STREAM_MARKER);
    var q := ReadsZero(r, out, last, more, tail);
    assert more + [] == more;
    var q1 := ReadsNewOffset(q, last, END_OF_STREAM_MARKER, [], tail);
  }

  lemma ReadsLiteral(r: Reader, out: seq<byte>, last: Distance, v: byte, rest: seq<Symbol>, tail: seq<byte>)
    returns (q: Reader)
    requires Before(r, [Bit(1), Byte(v)] + rest, tail)
    ensures Step(r, out, last) == Some(More(q, out + [v], last)) && Before(q, rest, tail)
  {
    var syms := [Bit(1), Byte(v)] + rest;
    ReadsBit(r, syms, tail);
    var r1 := GetBit(r).value.0;
    ReadsByte(r1, syms[1..], tail);
    q := ReadByte(r1).value.0;
    assert syms[1..][1..] == rest;
  }

  lemma StepMatchIs(r: Reader, r1: Reader, q: Reader, out: seq<byte>, last: Distance, offset: Distance, count: nat)
    requires MatchOffset(r, last) == Some((r1, Some(offset))) && offset <= |out|
    requires count >= 1 && MatchLength(r1, offset) == Some((q, count - 1))
    ensures StepMatch(r, out, last) == Some(More(q, CopyMatch(out, offset, count), offset))
  {
  }

  lemma FinishesMatch(r: Reader, r1: Reader, out: seq<byte>, last: Distance, offset: Distance, count: nat,
                      rest: seq<Symbol>, tail: seq<byte>) returns (q: Reader)
    requires MatchOffset(r, last) == Some((r1, Some(offset))) && ValidMatch(offset, count, |out|)
    requires Before(r1, LengthSymbols(offset, count) + rest, tail)
    ensures StepMatch(r, out, last) == Some(More(q, CopyMatch(out, offset, count), offset)) && Before(q, rest, tail)
  {
    q := ReadsLength(r1, offset, count, rest, tail);
    StepMatchIs(r, r1, q, out, last, offset, count);
  }

  lemma ReadsMatch(
      r: Reader, out: seq<byte>, last: Distance, offset: Distance, count: nat, rest: seq<Symbol>, tail: seq<byte>)
    returns (q: Reader)
    requires ValidMatch(offset, count, |out|) && offset != 4294967296
    requires Before(r, [Bit(0)] + (OffsetSymbols(offset - 1) + (LengthSymbols(offset, count) + rest)), tail)
    ensures Step(r, out, last) == Some(More(q, CopyMatch(out, offset, count), offset)) && Before(q, rest, tail)
  {
    var more := LengthSymbols(offset, count) + rest;
    var r1 := ReadsZero(r, out, last, OffsetSymbols(offset - 1) + more, tail);
    var r2 := ReadsNewOffset(r1, last, offset - 1, more, tail);
    q := FinishesMatch(r1, r2, out, last, offset, count, rest, tail);
  }

  lemma ReadsRepeat(r: Reader, out: seq<byte>, last: Distance, count: nat, rest: seq<Symbol>, tail: seq<byte>)
    returns (q: Reader)
    requires ValidMatch(last, count, |out|)
    requires Before(r, [Bit(0)] + (GammaSymbols(2) + (LengthSymbols(last, count) + rest)), tail)
    ensures Step(r, out, last) == Some(More(q, CopyMatch(out, last, count), last)) && Before(q, rest, tail)
  {
    var more := LengthSymbols(last, count) + rest;
    var r1 := ReadsZero(r, out, last, GammaSymbols(2) + more, tail);
    var r2 := ReadsLastOffset(r1, last, more, tail);
    q := FinishesMatch(r1, r2, out, last, last, count, rest, tail);
  }

  /** One token: the decoder ends up in the state its expansion describes, before the next token. */
  lemma ReadsToken(r: Reader, t: Token, out: seq<byte>, last: Distance, rest: seq<Symbol>, tail: seq<byte>)
    returns (q: Reader)
    requires ValidToken(t, |out|, last) && Before(r, TokenSymbols(t, |out|, last) + rest, tail)
    ensures Step(r, out, last) == Some(More(q, OutputAfter(t, out, last), OffsetAfter(t, last)))
    ensures Before(q, rest, tail)
  {
    match t
    case Literal(v) => q := ReadsLiteral(r, out, last, v, rest, tail);
    case Match(offset, count) =>
      Regrouped([Bit(0)], OffsetSymbols(offset - 1), LengthSymbols(offset, count), rest);
      q := ReadsMatch(r, out, last, offset, count, rest, tail);
    case Repeat(count) =>
      Regrouped([Bit(0)], GammaSymbols(2), LengthSymbols(last, count), rest);
      q := ReadsRepeat(r, out, last, count, rest, tail);
  }

  lemma {:induction false} DecodesTokens(r: Reader, ts: seq<Token>, out: seq<byte>, last: Distance, tail: seq<byte>)
    requires ValidTokens(ts, |out|, last) && Before(r, Symbols(ts, |out|, last), tail)
    ensures Decode(r, out, last) == Some(Expand(ts, out, last))
    decreases |ts|
  {
    if ts == [] {
      ReadsEnd(r, out, last, tail);
    } else {
      var next, offset := OutputAfter(ts[0], out, last), OffsetAfter(ts[0], last);
      var q := ReadsToken(r, ts[0], out, last, Symbols(ts[1..], |next|, offset), tail);
      DecodesTokens(q, ts[1..], next, offset, tail);
    }
  }

  /** Decompressing what an encoder wrote yields the expansion of its tokens; what follows is ignored. */
  lemma RoundTrip(ts: seq<Token>, tail: seq<byte>)
    requires ValidTokens(ts, 0, 1)
    ensures Decompress(Compress(ts) + tail) == Some(Expand(ts, [], 1))
  {
    var r := ReaderState(Compress(ts) + tail, 0, 0, 0);
    assert r.data[0..] == r.data;
    DecodesTokens(r, ts, [], 1, tail);
  }

  // ---- every successful run of the decoder ----

  /** A copy repeats the last `offset` bytes, also when it overlaps what it appends. */
  lemma {:induction false} CopyIsPeriodic(out: seq<byte>, offset: Distance, count: nat)
    requires offset <= |out|
    ensures var res := CopyMatch(out, offset, count);
            res[..|out|] == out && forall k :: |out| <= k < |res| ==> res[k] == res[k - offset]
    decreases count
  {
    if count > 0 {
      var next := out + [out[|out| - offset]];
      CopyIsPeriodic(next, offset, count - 1);
      var res := CopyMatch(next, offset, count - 1);
      assert res[..|next|][..|out|] == res[..|out|];
      assert res[|out|] == next[|out|];
      assert res[|out| - offset] == next[|out| - offset];
    }
  }

  /** The place inside the period, and the same one period back. */
  lemma Phase(k: nat, offset: nat) returns (m: nat)
    requires 0 < offset
    ensures m == k % offset && m < offset
    ensures if k < offset then m == k else m == (k - offset) % offset
  {
    m := k % offset;
    if k < offset {
      DivisionIs(k, offset, 0, k);
    } else {
      DivisionIs(k, offset, (k - offset) / offset + 1, (k - offset) % offset);
    }
  }

  lemma {:induction false} CopiedByte(out: seq<byte>, offset: Distance, count: nat, k: nat)
    requires offset <= |out| && k < count
    ensures CopyMatch(out, offset, count)[|out| + k] == out[|out| - offset + k % offset]
    decreases k
  {
    CopyIsPeriodic(out, offset, count);
    hide CopyMatch;
    var res := CopyMatch(out, offset, count);
    var m := Phase(k, offset);
    assert res[|out| + k] == res[|out| + k - offset];
    if k < offset {
      assert res[..|out|][|out| + k - offset] == res[|out| + k - offset];
    } else {
      CopiedByte(out, offset, count, k - offset);
      assert res[|out| + k - offset] == out[|out| - offset + m];
    }
  }

  /** A step the decoder takes is a step of the expansion of some token. */
  lemma StepIsToken(r: Reader, out: seq<byte>, last: Distance) returns (t: Token)
    requires Step(r, out, last).Some? && Step(r, out, last).value.More?
    ensures ValidToken(t, |out|, last)
    ensures Step(r, out, last).value.out == OutputAfter(t, out, last)
    ensures Step(r, out, last).value.last == OffsetAfter(t, last)
  {
    hide GetBit, ReadByte, CopyMatch;
    var (r1, literal) := GetBit(r).value;
    if literal == 1 {
      t := Literal(ReadByte(r1).value.1);
    } else {
      var (r2, offset) := MatchOffset(r1, last).value;
      var length := MatchLength(r2, offset.value).value.1;
      assert length >= 1 + Extra(offset.value);
      t := if Gamma(r1, 1).value.1 == 2 then Repeat(length + 1) else Match(offset.value, length + 1);
    }
  }

  /** Whatever the decoder accepts, its output is the expansion of a valid token list. */
  lemma {:induction false} AcceptedIsExpansion(r: Reader, out: seq<byte>, last: Distance) returns (ts: seq<Token>)
    requires Decode(r, out, last).Some?
    ensures ValidTokens(ts, |out|, last) && Decode(r, out, last).value == Expand(ts, out, last)
    decreases Remaining(r)
  {
    var p := Step(r, out, last).value;
    if p.Done? {
      ts := [];
    } else {
      var t := StepIsToken(r, out, last);
      var rest := AcceptedIsExpansion(p.r, p.out, p.last);
      ts := [t] + rest;
    }
  }
}
