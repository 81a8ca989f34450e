/**
 What a compressed stream says, code by code.  The width of a code, its place and whether it makes sense
 depend on the number of codes since the stream began or was last cleared; its first byte on the codes.
 */
module LzwCodes {
  import opened Bytes
  import opened Files
  import opened Lzw
  import D = LzwDecoder

  // ---- lists of codes ----

  /** The first table entry: with clear codes, 256 is the clear code. */
  function Lowest(block: bool): nat {
    if block then 257 else 256
  }

  /** Every code is a byte, or one of the entries that there are by then: one for each code but the first. */
  ghost predicate Sensible(block: bool, codes: seq<nat>) {
    forall j :: 0 <= j < |codes| ==> codes[j] < 256 || Lowest(block) <= codes[j] < Lowest(block) + j
  }

  /** The first byte of the string of code `j`: an entry begins with the string of the code it was made after. */
  function LeadOf(block: bool, codes: seq<nat>, j: nat): nat
    requires Sensible(block, codes) && j < |codes|
    decreases j
  {
    if codes[j] < 256 then codes[j] else LeadOf(block, codes, codes[j] - Lowest(block))
  }

  lemma {:induction false} LeadOfMore(block: bool, codes: seq<nat>, code: nat, j: nat)
    requires Sensible(block, codes) && Sensible(block, codes + [code]) && j < |codes|
    ensures LeadOf(block, codes + [code], j) == LeadOf(block, codes, j)
    decreases j
  {
    if codes[j] >= 256 {
      LeadOfMore(block, codes, code, codes[j] - Lowest(block));
    }
  }

  lemma SensibleMore(block: bool, codes: seq<nat>, code: nat)
    requires Sensible(block, codes)
    ensures Sensible(block, codes + [code]) <==> code < 256 || Lowest(block) <= code < Lowest(block) + |codes|
  {
    var longer := codes + [code];
    assert longer[|codes|] == code && forall j :: 0 <= j < |codes| ==> longer[j] == codes[j];
  }

  // ---- the widths of codes, and their places ----

  /** How many codes come before those with a number of bits. */
  function FirstOf(block: bool, bits: nat): int {
    if bits <= 9 then 0 else Pow2(bits - 1) - if block then 256 else 255
  }

  /** The width of code `n`, which is `bits` at least. */
  function Width(block: bool, maxBits: nat, n: nat, bits: nat): (w: nat)
    requires bits <= maxBits
    ensures bits <= w <= maxBits
    decreases maxBits - bits
  {
    if bits < maxBits && n >= FirstOf(block, bits + 1) then Width(block, maxBits, n, bits + 1) else bits
  }

  lemma {:induction false} WidthIs(block: bool, maxBits: nat, n: nat, bits: nat, w: nat)
    requires 9 <= bits <= w <= maxBits
    requires n >= FirstOf(block, w) && (w < maxBits ==> n < FirstOf(block, w + 1))
    ensures Width(block, maxBits, n, bits) == w
    decreases w - bits
  {
    if bits < w {
      FirstGrows(block, bits + 1, w);
      WidthIs(block, maxBits, n, bits + 1, w);
    }
  }

  lemma {:induction false} Pow2Grows(a: nat, b: nat)
    requires a <= b
    ensures Pow2(a) <= Pow2(b) && (a < b ==> Pow2(a) < Pow2(b))
  {
    if a < b {
      Pow2Grows(a, b - 1);
    }
  }

  lemma FirstGrows(block: bool, a: nat, b: nat)
    requires 9 < a <= b
    ensures FirstOf(block, a) <= FirstOf(block, b)
  {
    Pow2Grows(a - 1, b - 1);
  }

  /** `bit` bits behind the byte `at`, where the decoder has counted to `mark`. */
  datatype Place = Place(at: nat, mark: nat, bit: nat, width: nat) {
    function Bytes(): nat { (bit + width + 7) / 8 }
  }

  function Times(a: nat, b: int): (c: int)
    ensures b >= 0 ==> c >= 0
  {
    if b < 0 then 0 else a * b
  }

  function PlaceOf(t: Stream, o: Origin, n: nat): Place
    requires t.maxBits >= 9
  {
    var w := Width(t.block, t.maxBits, n, 9);
    Place(o.base + InFront(t.block, w), o.mark + InFront(t.block, w) + Ahead(t.block, w),
          Times(w, n - FirstOf(t.block, w)), w)
  }

  predicate InFile(t: Stream, p: Place) {
    p.at + p.Bytes() <= |t.data| && p.mark + p.Bytes() <= t.maxLen
  }

  function CodeAt(t: Stream, p: Place): nat
    requires InFile(t, p)
  {
    Field(t.data, p.at, p.bit, p.width)
  }

  /** Behind a clear code the stream goes on with a multiple of its width, which the file does not have. */
  function Behind(p: Place): Origin
    requires p.width > 0
  {
    Origin(p.at + p.Bytes(), p.mark + (p.Bytes() + p.width - 1) / p.width * p.width)
  }

  // ---- what the decoder knows ----

  ghost predicate Table(block: bool, dict: seq<seq<byte>>, codes: seq<nat>)
    requires Sensible(block, codes)
  {
    forall i :: Lowest(block) - 256 <= i < |dict| ==> Begins(block, dict[i], codes, i - Lowest(block) + 256)
  }

  /** An entry begins like the code it was made after. */
  ghost predicate Begins(block: bool, entry: seq<byte>, codes: seq<nat>, j: int)
    requires Sensible(block, codes)
  {
    0 <= j < |codes| && entry != [] && entry[0] == LeadOf(block, codes, j)
  }

  ghost predicate Knows(t: Stream, o: Origin, s: State, codes: seq<nat>) {
    && t.maxBits >= 10 && Sensible(t.block, codes) && (codes != [] || t.block)
    && |codes| >= FirstOf(t.block, s.bits) && Steady(t, o, s, |codes| - FirstOf(t.block, s.bits))
    && s.End() == Min(Lowest(t.block) + |codes| - 2, Pow2(t.maxBits) - 1)
    && (codes != [] ==> s.prev == codes[|codes| - 1])
    && Table(t.block, s.dict, codes)
  }

  lemma WidthKnown(t: Stream, o: Origin, w: State, codes: seq<nat>)
    requires Knows(t, o, w, codes) && (w.bits < t.maxBits ==> w.End() < Pow2(w.bits) - 1)
    ensures w.bits == Width(t.block, t.maxBits, |codes|, 9)
  {
    hide InFront, Table, Sensible, Ahead;
    PowersUpTo9();
    if w.bits < t.maxBits {
      Pow2Grows(w.bits + 1, t.maxBits);
    }
    WidthIs(t.block, t.maxBits, |codes|, 9, w.bits);
  }

  /** Codes get wider when as many have been read as there are places for entries. */
  lemma WiderKnown(t: Stream, o: Origin, s: State, codes: seq<nat>)
    requires Knows(t, o, s, codes) && s.End() >= Pow2(s.bits) - 1 && s.bits < t.maxBits
    ensures |codes| == FirstOf(t.block, s.bits + 1) && (s.bits == 9 && !t.block ==> |codes| == 257)
  {
    hide InFront, Table, Sensible, Ahead;
    PowersUpTo9();
    Pow2Grows(s.bits, t.maxBits);
  }

  lemma WidenKnown(t: Stream, o: Origin, s: State, codes: seq<nat>)
    requires Knows(t, o, s, codes)
    ensures match Widen(t, s)
            case None => !t.block && |codes| == 257 && t.maxLen <= o.mark + 297
            case Some(w) =>
              && Knows(t, o, w, codes) && w.bits == Width(t.block, t.maxBits, |codes|, 9)
              && w.Nxt() >= s.Nxt() && (w.bits < t.maxBits ==> w.End() < Pow2(w.bits) - 1)
  {
    hide Table, Sensible, Skip, Steady, Pow2, Width;
    WidenSteady(t, o, s, |codes| - FirstOf(t.block, s.bits));
    SteadyWidth(t, o, s, |codes| - FirstOf(t.block, s.bits));
    if s.End() >= Pow2(s.bits) - 1 && s.bits < t.maxBits {
      WiderKnown(t, o, s, codes);
    }
    if Widen(t, s).Some? {
      WidthKnown(t, o, Widen(t, s).value, codes);
    }
  }

  /** The next code is read where it stands. */
  lemma ReadKnown(t: Stream, o: Origin, w: State, codes: seq<nat>)
    requires Knows(t, o, w, codes) && w.bits == Width(t.block, t.maxBits, |codes|, 9)
    ensures var p := PlaceOf(t, o, |codes|);
            && p == Place(w.base, w.mark, w.used, w.bits)
            && ReadCode(t, w) == if InFile(t, p) then Some(CodeAt(t, p)) else None
  {
    hide InFront, Table, Sensible, Field;
  }

  /** The strings of a table begin as the codes say. */
  lemma LeadKnown(block: bool, dict: seq<seq<byte>>, codes: seq<nat>, code: nat)
    requires Sensible(block, codes) && Table(block, dict, codes) && Sensible(block, codes + [code])
    requires code < 256 || code - 256 < |dict|
    ensures Str(dict, code) != [] && Str(dict, code)[0] == LeadOf(block, codes + [code], |codes|)
  {
    var longer := codes + [code];
    assert longer[|codes|] == code;
    if code >= 256 {
      LeadOfMore(block, codes, code, code - Lowest(block));
    }
  }

  /** So does the string of the code before, which the code just past the table repeats. */
  lemma LastKnown(block: bool, dict: seq<seq<byte>>, codes: seq<nat>)
    requires codes != [] && Sensible(block, codes) && Table(block, dict, codes)
    requires |dict| == Lowest(block) + |codes| - 257
    ensures var prev := codes[|codes| - 1];
            prev - 256 < |dict| && Str(dict, prev) != [] && Str(dict, prev)[0] == LeadOf(block, codes, |codes| - 1)
  {
  }

  lemma NextKnown(block: bool, codes: seq<nat>, code: nat)
    requires codes != [] && Sensible(block, codes) && Sensible(block, codes + [code])
    requires code == Lowest(block) + |codes| - 1
    ensures LeadOf(block, codes + [code], |codes|) == LeadOf(block, codes, |codes| - 1)
  {
    assert (codes + [code])[|codes|] == code;
    LeadOfMore(block, codes, code, |codes| - 1);
  }

  lemma TableStays(block: bool, dict: seq<seq<byte>>, codes: seq<nat>, code: nat)
    requires Sensible(block, codes) && Table(block, dict, codes) && Sensible(block, codes + [code])
    ensures Table(block, dict, codes + [code])
  {
    hide LeadOf, Sensible;
    forall i | Lowest(block) - 256 <= i < |dict|
      ensures Begins(block, dict[i], codes + [code], i - Lowest(block) + 256)
    {
      assert Begins(block, dict[i], codes, i - Lowest(block) + 256);
      LeadOfMore(block, codes, code, i - Lowest(block) + 256);
    }
  }

  lemma TableGrows(block: bool, dict: seq<seq<byte>>, codes: seq<nat>, code: nat, entry: seq<byte>)
    requires Sensible(block, codes) && Table(block, dict, codes) && Sensible(block, codes + [code])
    requires |dict| == Lowest(block) + |codes| - 257
    requires codes != [] ==> entry != [] && entry[0] == LeadOf(block, codes, |codes| - 1)
    requires codes != [] || block
    ensures Table(block, dict + [entry], codes + [code])
  {
    TableStays(block, dict, codes, code);
    hide LeadOf, Sensible;
    if codes != [] {
      LeadOfMore(block, codes, code, |codes| - 1);
      assert Begins(block, entry, codes + [code], |codes| - 1);
    }
  }

  /** A code is refused exactly when it makes no sense after those before. */
  lemma RefusedKnown(t: Stream, o: Origin, w: State, codes: seq<nat>, code: nat)
    requires Knows(t, o, w, codes) && code <= Pow2(w.bits) - 1 && !(code == CLEAR && t.block)
    ensures Extend(w, code).More? <==> Sensible(t.block, codes + [code])
    ensures !Extend(w, code).Stop?
    ensures Extend(w, code).More? && code > w.End() ==>
              codes != [] && code == Lowest(t.block) + |codes| - 1 && |w.dict| == Lowest(t.block) + |codes| - 257
  {
    hide InFront, Table, Str, First, Pow2;
    Pow2Grows(w.bits, t.maxBits);
    SensibleMore(t.block, codes, code);
    if codes != [] {
      assert codes[|codes| - 1] < Lowest(t.block) + |codes| - 1;
    }
  }

  /** The first byte of its string. */
  lemma LastByteKnown(t: Stream, o: Origin, w: State, codes: seq<nat>, code: nat)
    requires Knows(t, o, w, codes) && code <= Pow2(w.bits) - 1 && !(code == CLEAR && t.block)
    requires Extend(w, code).More? && Sensible(t.block, codes + [code])
    ensures Extend(w, code).state.last == LeadOf(t.block, codes + [code], |codes|)
  {
    hide InFront, Table, Pow2, Steady, Str, LeadOf, Sensible;
    RefusedKnown(t, o, w, codes, code);
    if code > w.End() {
      LastKnown(t.block, w.dict, codes);
      NextKnown(t.block, codes, code);
    } else {
      LeadKnown(t.block, w.dict, codes, code);
    }
  }

  /** The table after a code that makes sense. */
  lemma TableKnown(t: Stream, o: Origin, w: State, codes: seq<nat>, code: nat)
    requires Knows(t, o, w, codes) && (w.bits < t.maxBits ==> w.End() < Pow2(w.bits) - 1)
    requires code <= Pow2(w.bits) - 1 && !(code == CLEAR && t.block)
    requires Sensible(t.block, codes + [code]) && Extend(w, code).More?
    ensures var next := Extend(w, code).state;
            && Table(t.block, next.dict, codes + [code])
            && next.End() == Min(Lowest(t.block) + |codes| - 1, Pow2(t.maxBits) - 1)
            && next.prev == code
  {
    hide InFront, Table, Pow2, Str, First, LeadOf, Sensible, Steady;
    TableStays(t.block, w.dict, codes, code);
    SteadyWidth(t, o, w, |codes| - FirstOf(t.block, w.bits));
    SteadyLimits(t, o, w, |codes| - FirstOf(t.block, w.bits));
    if w.End() < Pow2(w.bits) - 1 {
      if codes != [] {
        LastKnown(t.block, w.dict, codes);
      }
      TableGrows(t.block, w.dict, codes, code, Str(w.dict, w.prev) + [Extend(w, code).state.last]);
    }
  }

  lemma SteadyLimits(t: Stream, o: Origin, s: State, k: nat)
    requires Steady(t, o, s, k)
    ensures s.bits <= t.maxBits && Pow2(s.bits) <= Pow2(t.maxBits)
  {
    Pow2Grows(s.bits, t.maxBits);
  }

  /** A code that makes sense is one more that is known. */
  lemma ExtendKnown(t: Stream, o: Origin, w: State, codes: seq<nat>, code: nat)
    requires Knows(t, o, w, codes) && (w.bits < t.maxBits ==> w.End() < Pow2(w.bits) - 1)
    requires ReadCode(t, w) == Some(code) && !(code == CLEAR && t.block)
    requires Sensible(t.block, codes + [code])
    ensures var next := Extend(w.(used := w.used + w.bits), code);
            && next.More? && Knows(t, o, next.state, codes + [code])
            && next.state.last == LeadOf(t.block, codes + [code], |codes|)
  {
    hide Table, Pow2, LeadOf, Sensible, ReadCode, Extend, Steady;
    CodeFits(t, o, w, codes);
    CodeSteady(t, o, w, |codes| - FirstOf(t.block, w.bits));
    SameTable(t, o, w, codes, code);
    TableKnown(t, o, w, codes, code);
  }

  lemma CodeFits(t: Stream, o: Origin, w: State, codes: seq<nat>)
    requires Knows(t, o, w, codes) && ReadCode(t, w).Some?
    ensures ReadCode(t, w).value <= Pow2(w.bits) - 1
  {
    EnoughBytes(w.base, w.used + w.bits, |t.data|);
    FieldIsSmall(t.data, w.base, w.used, w.bits);
  }

  /** The bits read so far do not matter to the table. */
  lemma SameTable(t: Stream, o: Origin, w: State, codes: seq<nat>, code: nat)
    requires Knows(t, o, w, codes) && code <= Pow2(w.bits) - 1 && !(code == CLEAR && t.block)
    requires Sensible(t.block, codes + [code])
    ensures var r := Extend(w.(used := w.used + w.bits), code);
            && r.More? && Extend(w, code).More? && r.state == Extend(w, code).state.(used := w.used + w.bits)
            && r.state.bits == w.bits
            && r.state.last == LeadOf(t.block, codes + [code], |codes|)
  {
    hide InFront, Table, Pow2, Steady, Str, First, LeadOf, Sensible;
    RefusedKnown(t, o, w, codes, code);
    LastByteKnown(t, o, w, codes, code);
  }

  lemma RoundedUp(n: nat, d: nat)
    requires d > 0
    ensures (n + d - 1) / d * d == n + Skip(n, d)
  {
    var q, m := n / d, n % d;
    assert n == q * d + m;
    if m == 0 {
      DivisionIs(n + d - 1, d, q, d - 1);
    } else {
      DivisionIs(n + d - 1, d, q + 1, m - 1);
    }
  }

  /** Where the bits read so far end, rounded up to whole groups in the count of the decoder. */
  function Realigned(r: State): Origin
    requires r.bits > 0
  {
    Origin(r.Pos(), r.Nxt() + Skip(Octets(r.used), r.bits))
  }

  lemma ClearIs(t: Stream, r: State)
    requires r.bits > 0 && r.Nxt() <= t.maxLen
    ensures var o := Realigned(r);
            Clear(t, r) ==
            if o.mark <= t.maxLen then
              More(r.(base := o.base, mark := o.mark, used := 0, bits := 9, dict := [], last := CLEAR))
            else Stop(r.(last := CLEAR))
  {
    hide Skip;
  }

  lemma BehindIs(w: State)
    requires w.bits > 0
    ensures Behind(Place(w.base, w.mark, w.used, w.bits)) == Realigned(w.(used := w.used + w.bits))
  {
    hide Skip;
    RoundedUp(Octets(w.used + w.bits), w.bits);
  }

  /** Behind a clear code nothing is known, and codes have nine bits again. */
  lemma ClearKnown(t: Stream, o: Origin, w: State, codes: seq<nat>)
    requires t.block && Knows(t, o, w, codes) && w.bits == Width(t.block, t.maxBits, |codes|, 9)
    requires InFile(t, PlaceOf(t, o, |codes|))
    ensures var p, next := PlaceOf(t, o, |codes|), Clear(t, w.(used := w.used + w.bits));
            if Behind(p).mark <= t.maxLen then
              && next.More? && Knows(t, Behind(p), next.state, []) && next.state.last == CLEAR
              && next.state.Pos() == Behind(p).base && next.state.Nxt() == Behind(p).mark
            else
              next.Stop? && next.state.last == CLEAR && next.state.Pos() == Behind(p).base
  {
    hide PlaceOf, Knows, Realigned, Behind, Clear, Width;
    ReadKnown(t, o, w, codes);
    BitsKnown(t, o, w, codes);
    var r := w.(used := w.used + w.bits);
    BehindIs(w);
    ClearIs(t, r);
    RealignedBase(r);
    ClearedKnown(t, Realigned(r), r);
  }

  lemma RealignedBase(r: State)
    requires r.bits > 0
    ensures Realigned(r).base == r.Pos()
  {
  }

  lemma ClearedKnown(t: Stream, o: Origin, s: State)
    requires t.block && t.maxBits >= 10 && o.base <= |t.data|
    ensures Knows(t, o, s.(base := o.base, mark := o.mark, used := 0, bits := 9, dict := [], last := CLEAR), [])
  {
    PowersUpTo9();
    assert Pow2(8) == 256;
    Pow2Grows(9, t.maxBits);
  }

  /**
   One turn of the loop, by what has been read since the beginning or the last clear code: the next code
   stands where its number says, it clears the table, makes sense, or makes the decoder give up.
   */
  lemma StepKnown(t: Stream, o: Origin, s: State, codes: seq<nat>)
    requires Knows(t, o, s, codes) && !(!t.block && |codes| == 257 && t.maxLen <= o.mark + 297)
    ensures var p, next := PlaceOf(t, o, |codes|), Step(t, s);
            if !InFile(t, p) then next == Bad
            else if t.block && CodeAt(t, p) == 256 then
              if Behind(p).mark <= t.maxLen then
                && next.More? && Knows(t, Behind(p), next.state, []) && next.state.last == 256
                && next.state.Pos() == Behind(p).base && next.state.Nxt() == Behind(p).mark
              else
                next.Stop? && next.state.last == 256 && next.state.Pos() == Behind(p).base
            else if Sensible(t.block, codes + [CodeAt(t, p)]) then
              && next.More? && Knows(t, o, next.state, codes + [CodeAt(t, p)])
              && next.state.last == LeadOf(t.block, codes + [CodeAt(t, p)], |codes|)
              && next.state.Pos() == p.at + p.Bytes() && next.state.Nxt() == p.mark + p.Bytes()
            else next == Bad
  {
    hide Knows, Widen, ReadCode, Width, FirstOf, InFront, Clear, Extend, LeadOf, Sensible, InFile, Field;
    WidenKnown(t, o, s, codes);
    BitsKnown(t, o, s, codes);
    var w := Widen(t, s).value;
    ReadKnown(t, o, w, codes);
    if ReadCode(t, w).Some? {
      CodeKnown(t, o, w, codes);
    }
  }

  lemma BitsKnown(t: Stream, o: Origin, s: State, codes: seq<nat>)
    requires Knows(t, o, s, codes)
    ensures 9 <= s.bits <= t.maxBits && t.maxBits >= 10 && s.Pos() <= |t.data|
  {
  }

  lemma CodeKnown(t: Stream, o: Origin, w: State, codes: seq<nat>)
    requires Knows(t, o, w, codes) && w.bits == Width(t.block, t.maxBits, |codes|, 9)
    requires (w.bits < t.maxBits ==> w.End() < Pow2(w.bits) - 1) && ReadCode(t, w).Some?
    ensures InFile(t, PlaceOf(t, o, |codes|))
    ensures var p, code, r := PlaceOf(t, o, |codes|), ReadCode(t, w).value, w.(used := w.used + w.bits);
            && code == CodeAt(t, p) && w.bits > 0
            && if t.block && code == 256 then
                 if Behind(p).mark <= t.maxLen then
                   && Clear(t, r).More? && Knows(t, Behind(p), Clear(t, r).state, []) && Clear(t, r).state.last == 256
                   && Clear(t, r).state.Pos() == Behind(p).base && Clear(t, r).state.Nxt() == Behind(p).mark
                 else
                   Clear(t, r).Stop? && Clear(t, r).state.last == 256 && Clear(t, r).state.Pos() == Behind(p).base
               else if Sensible(t.block, codes + [code]) then
                 && Extend(r, code).More? && Knows(t, o, Extend(r, code).state, codes + [code])
                 && Extend(r, code).state.last == LeadOf(t.block, codes + [code], |codes|)
                 && Extend(r, code).state.Pos() == p.at + p.Bytes() && Extend(r, code).state.Nxt() == p.mark + p.Bytes()
               else Extend(r, code) == Bad
  {
    hide Width, FirstOf, InFront, Clear, LeadOf, Sensible, Field, Str, First, Pow2;
    ReadKnown(t, o, w, codes);
    BitsKnown(t, o, w, codes);
    var code := ReadCode(t, w).value;
    CodeFits(t, o, w, codes);
    hide Knows;
    if t.block && code == 256 {
      ClearKnown(t, o, w, codes);
    } else {
      RefusedKnown(t, o, w, codes, code);
      if Sensible(t.block, codes + [code]) {
        ExtendKnown(t, o, w, codes, code);
      }
    }
  }

  // ---- whole streams ----

  /** Where some codes end, and the count of the decoder there. */
  function EndOf(t: Stream, o: Origin, codes: seq<nat>): Origin
    requires t.maxBits >= 9
  {
    if codes == [] then o
    else
      var p := PlaceOf(t, o, |codes| - 1);
      Origin(p.at + p.Bytes(), p.mark + p.Bytes())
  }

  /** The codes stand in the file, each in its place, from code `n` on. */
  ghost predicate Stand(t: Stream, o: Origin, codes: seq<nat>, n: nat)
    requires t.maxBits >= 9
  {
    forall j :: n <= j < |codes| ==> InFile(t, PlaceOf(t, o, j)) && CodeAt(t, PlaceOf(t, o, j)) == codes[j]
  }

  lemma NxtKnown(t: Stream, o: Origin, s: State, codes: seq<nat>)
    requires Knows(t, o, s, codes) && !(!t.block && |codes| == 257 && t.maxLen <= o.mark + 297)
    requires InFile(t, PlaceOf(t, o, |codes|))
    ensures s.Nxt() < t.maxLen
  {
    hide Knows, Width, FirstOf, InFront;
    WidenKnown(t, o, s, codes);
    ReadKnown(t, o, Widen(t, s).value, codes);
    BitsKnown(t, o, Widen(t, s).value, codes);
  }

  lemma RunByStep(t: Stream, s: State)
    requires s.bits >= 9 && s.Nxt() < t.maxLen
    ensures Step(t, s).Bad? ==> Run(t, s) == None
    ensures Step(t, s).More? ==> Step(t, s).state.bits >= 9 && Run(t, s) == Run(t, Step(t, s).state)
  {
    hide Step;
    StepAdvances(t, s);
  }

  lemma LateCode(t: Stream, o: Origin)
    requires t.maxBits >= 10 && !t.block && InFile(t, PlaceOf(t, o, 257))
    ensures t.maxLen > o.mark + 297
  {
    PowersUpTo9();
    assert Pow2(10) == 1024;
    WidthIs(false, t.maxBits, 257, 9, 10);
    InFrontOfTen(false);
  }

  /** Codes that stand in the file and make sense are read one after the other. */
  lemma {:induction false} RunCodes(t: Stream, o: Origin, s: State, codes: seq<nat>, n: nat) returns (end: State)
    requires n <= |codes| && Knows(t, o, s, codes[..n]) && Sensible(t.block, codes) && Stand(t, o, codes, n)
    ensures end.bits >= 9 && s.bits >= 9 && Run(t, s) == Run(t, end) && Knows(t, o, end, codes)
    ensures if n == |codes| then end == s
            else
              && end.last == LeadOf(t.block, codes, |codes| - 1)
              && Origin(end.Pos(), end.Nxt()) == EndOf(t, o, codes)
    decreases |codes| - n
  {
    hide Knows, PlaceOf, Step, LeadOf, Run, InFile;
    BitsKnown(t, o, s, codes[..n]);
    end := s;
    if n == |codes| {
      assert codes[..n] == codes;
    } else {
      assert codes[..n] + [codes[n]] == codes[..n + 1] && codes[..|codes|] == codes;
      assert InFile(t, PlaceOf(t, o, n));
      if !t.block && n == 257 {
        LateCode(t, o);
      }
      StepKnown(t, o, s, codes[..n]);
      NxtKnown(t, o, s, codes[..n]);
      RunByStep(t, s);
      end := RunCodes(t, o, Step(t, s).state, codes, n + 1);
    }
  }

  /** Lists of codes with a clear code after each but the last, in their places from an origin on. */
  ghost predicate Written(t: Stream, o: Origin, lists: seq<seq<nat>>)
    requires t.maxBits >= 9
    decreases |lists|
  {
    && lists != [] && Sensible(t.block, lists[0]) && Stand(t, o, lists[0], 0)
    && (|lists| > 1 ==>
          var p := PlaceOf(t, o, |lists[0]|);
          && t.block && InFile(t, p) && CodeAt(t, p) == 256 && Behind(p).mark <= t.maxLen
          && Written(t, Behind(p), lists[1..]))
  }

  /** Where the last list begins. */
  function LastOrigin(t: Stream, o: Origin, lists: seq<seq<nat>>): Origin
    requires t.maxBits >= 9
    decreases |lists|
  {
    if |lists| <= 1 then o else LastOrigin(t, Behind(PlaceOf(t, o, |lists[0]|)), lists[1..])
  }

  /** What the decoder holds last: the first byte of the last code, or the clear code. */
  function LastByte(block: bool, codes: seq<nat>): nat
    requires Sensible(block, codes)
  {
    if codes == [] then 256 else LeadOf(block, codes, |codes| - 1)
  }

  lemma {:induction false} LastIsSensible(t: Stream, o: Origin, lists: seq<seq<nat>>)
    requires t.maxBits >= 9 && Written(t, o, lists)
    ensures Sensible(t.block, lists[|lists| - 1])
    decreases |lists|
  {
    if |lists| > 1 {
      LastIsSensible(t, Behind(PlaceOf(t, o, |lists[0]|)), lists[1..]);
    }
  }

  /** Any number of clear codes later, the decoder knows the codes since the last of them, and no others. */
  lemma {:induction false} RunWritten(t: Stream, o: Origin, s: State, lists: seq<seq<nat>>, n: nat) returns (end: State)
    requires t.maxBits >= 9 && Written(t, o, lists) && n <= |lists[0]| && Knows(t, o, s, lists[0][..n])
    requires Origin(s.Pos(), s.Nxt()) == EndOf(t, o, lists[0][..n])
    requires n == 0 ==> s.last == 256
    ensures Sensible(t.block, lists[|lists| - 1])
    ensures end.bits >= 9 && s.bits >= 9 && Run(t, s) == Run(t, end)
    ensures Knows(t, LastOrigin(t, o, lists), end, lists[|lists| - 1])
    ensures Origin(end.Pos(), end.Nxt()) == EndOf(t, LastOrigin(t, o, lists), lists[|lists| - 1])
    ensures |lists| > 1 || n < |lists[0]| || n == 0 ==> end.last == LastByte(t.block, lists[|lists| - 1])
    decreases |lists|
  {
    hide Knows, PlaceOf, Step, LeadOf, Run, InFile, EndOf;
    LastIsSensible(t, o, lists);
    var codes := lists[0];
    assert codes[..|codes|] == codes;
    end := RunCodes(t, o, s, codes, n);
    if |lists| > 1 {
      var p := PlaceOf(t, o, |codes|);
      StepKnown(t, o, end, codes);
      NxtKnown(t, o, end, codes);
      RunByStep(t, end);
      var cleared := Step(t, end).state;
      assert lists[1..][0][..0] == [];
      NoCodesYet(t, Behind(p));
      end := RunWritten(t, Behind(p), cleared, lists[1..], 0);
    }
  }

  lemma NoCodesYet(t: Stream, o: Origin)
    requires t.maxBits >= 9
    ensures EndOf(t, o, []) == o
  {
  }

  lemma FirstKnown(t: Stream, start: nat, prev: nat)
    requires t.maxBits >= 10 && start + HEADER_LEN + 2 <= |t.data| && prev <= 255
    ensures Knows(t, FirstOrigin(start), FirstState(start, t.block, prev), [prev])
  {
    FirstSteady(t, start, prev);
    PowersUpTo9();
    Pow2Grows(9, t.maxBits);
  }

  /** The first code stands behind the header. */
  lemma FirstPlace(t: Stream, start: nat)
    requires t.maxBits >= 10
    ensures PlaceOf(t, FirstOrigin(start), 0) == Place(start + HEADER_LEN, HEADER_LEN, 0, 9)
  {
    PowersUpTo9();
    WidthIs(t.block, t.maxBits, 0, 9, 9);
  }

  /** Decoding a file in which lists of codes stand comes to the end of the last one. */
  lemma DecodesLists(t: Stream, start: nat, lists: seq<seq<nat>>) returns (end: State)
    requires t.maxBits >= 10 && Written(t, FirstOrigin(start), lists) && lists[0] != []
    ensures Sensible(t.block, lists[|lists| - 1]) && end.bits >= 9
    ensures Decode(t, start) == match Run(t, end) case None => Err(InvalidInputFormat) case Some(s) => Ok(s)
    ensures Knows(t, LastOrigin(t, FirstOrigin(start), lists), end, lists[|lists| - 1])
    ensures Origin(end.Pos(), end.Nxt()) == EndOf(t, LastOrigin(t, FirstOrigin(start), lists), lists[|lists| - 1])
    ensures |lists| > 1 || |lists[0]| > 1 ==> end.last == LastByte(t.block, lists[|lists| - 1])
  {
    hide Knows, Run, Field, LeadOf;
    var o := FirstOrigin(start);
    FirstPlace(t, start);
    assert CodeAt(t, PlaceOf(t, o, 0)) == lists[0][0];
    assert lists[0][..1] == [lists[0][0]];
    FirstKnown(t, start, lists[0][0]);
    end := RunWritten(t, o, FirstState(start, t.block, lists[0][0]), lists, 1);
  }

  /** The stream that a file has at an offset, by its flags. */
  ghost predicate HasStream(data: seq<byte>, start: nat, t: Stream) {
    start + HEADER_LEN <= |data| && StreamOf(data, data[start + 2], |data|) == Some(t)
  }

  /** The end of a stream, less the last byte unless that counts as many as the code before it says. */
  function ChunkEnd(t: Stream, o: Origin, lists: seq<seq<nat>>): int
    requires t.maxBits >= 9 && lists != [] && Sensible(t.block, lists[|lists| - 1])
  {
    var codes := lists[|lists| - 1];
    var end := EndOf(t, LastOrigin(t, o, lists), codes);
    if LastByte(t.block, codes) == end.mark - 1 then end.base else end.base - 1
  }

  /**
   A stream with any number of clear codes, whose codes stand in their places and make sense, is found if the
   count of the decoder at its end is the size of the file.
   */
  lemma WrittenIsFound(data: seq<byte>, start: nat, t: Stream, lists: seq<seq<nat>>)
    requires HasStream(data, start, t) && Written(t, FirstOrigin(start), lists) && lists[0] != []
    requires |lists| > 1 || |lists[0]| > 1
    requires EndOf(t, LastOrigin(t, FirstOrigin(start), lists), lists[|lists| - 1]).mark >= |data|
    ensures Sensible(t.block, lists[|lists| - 1])
    ensures var end := ChunkEnd(t, FirstOrigin(start), lists);
            CalculateChunk(data, start) == if end - start <= 5 then Err(InvalidInputFormat) else Ok((start, end))
  {
    hide Knows, Field, LeadOf, EndOf, LastOrigin, Written, Step, Decode;
    var end := DecodesLists(t, start, lists);
    assert Run(t, end) == Some(end);
  }

  /**
   It is refused when less than the size of the file has been counted and the next code does not stand in the
   file any more, or makes no sense after those since the last clear code.
   */
  lemma NonsenseIsRefused(data: seq<byte>, start: nat, t: Stream, lists: seq<seq<nat>>)
    requires HasStream(data, start, t) && Written(t, FirstOrigin(start), lists) && lists[0] != []
    requires var o, codes := LastOrigin(t, FirstOrigin(start), lists), lists[|lists| - 1];
             && EndOf(t, o, codes).mark < |data|
             && !(!t.block && |codes| == 257 && |data| <= 300)
             && (InFile(t, PlaceOf(t, o, |codes|)) ==>
                   var code := CodeAt(t, PlaceOf(t, o, |codes|));
                   !(t.block && code == 256) && !Sensible(t.block, codes + [code]))
    ensures CalculateChunk(data, start) == Err(InvalidInputFormat)
  {
    hide Knows, Field, LeadOf, EndOf, LastOrigin, Step, Run, Decode, PlaceOf, InFile, Sensible;
    LastMark(t, FirstOrigin(start), lists);
    var end := DecodesLists(t, start, lists);
    StepKnown(t, LastOrigin(t, FirstOrigin(start), lists), end, lists[|lists| - 1]);
    RunByStep(t, end);
  }

  /** Without clear codes there is one list only. */
  lemma LastMark(t: Stream, o: Origin, lists: seq<seq<nat>>)
    requires t.maxBits >= 9 && Written(t, o, lists)
    ensures !t.block ==> LastOrigin(t, o, lists) == o
  {
  }

  // ---- a stream that is cleared ----

  /** A code that begins on a byte. */
  lemma CodeOfTwoBytes(data: seq<byte>, base: nat, n: nat)
    requires base + 2 <= |data| && n <= 16
    ensures Field(data, base, 0, n) == (data[base] + 256 * data[base + 1]) % Pow2(n)
  {
    hide Field;
    D.ByteField(data, base, 0, 0);
    D.ByteField(data, base, 1, 0);
    D.FieldSplits(data, base, 0, 8, 8);
    D.PowersOfAByte();
    D.Taken(data, base, 0, n, 16);
  }

  /** 256 zeros of nine bits each, the clear code in ten bits, and a code of nine bits; six bytes are left over. */
  function ClearedFile(): seq<byte> {
    [0x1F, 0x9D, 0x90] + Zeros(288) + [0x00, 0x01, 0x41, 0x02, 0, 0, 0, 0, 0, 0, 0, 0]
  }

  lemma ZeroCodes(t: Stream, j: nat)
    requires t == Stream(ClearedFile(), true, 16, 303) && j < 256
    ensures PlaceOf(t, Origin(3, 3), j) == Place(3, 3, 9 * j, 9)
    ensures InFile(t, Place(3, 3, 9 * j, 9)) && CodeAt(t, Place(3, 3, 9 * j, 9)) == 0
  {
    PowersUpTo9();
    WidthIs(true, 16, j, 9, 9);
    var front, rest := [0x1F, 0x9D, 0x90] + Zeros(288), [0x00, 0x01, 0x41, 0x02, 0, 0, 0, 0, 0, 0, 0, 0];
    assert t.data == front + rest;
    FieldBefore(front, rest, 3, 9 * j, 9);
    FieldOfZeros(front, 3, 9 * j, 9);
  }

  lemma ClearedBytes(data: seq<byte>)
    requires data == ClearedFile()
    ensures |data| == 303 && data[291] == 0 && data[292] == 1 && data[293] == 0x41 && data[294] == 2
    ensures Field(data, 291, 0, 10) == 256 && Field(data, 293, 0, 9) == 0x41
  {
    hide Field;
    PowersUpTo9();
    assert Pow2(10) == 1024;
    CodeOfTwoBytes(data, 291, 10);
    CodeOfTwoBytes(data, 293, 9);
  }

  lemma ClearedPlaces(t: Stream)
    requires t.block && t.maxBits == 16
    ensures PlaceOf(t, Origin(3, 3), 256) == Place(291, 291, 0, 10)
    ensures PlaceOf(t, Origin(293, 301), 0) == Place(293, 301, 0, 9)
    ensures Behind(Place(291, 291, 0, 10)) == Origin(293, 301)
  {
    PowersUpTo9();
    assert Pow2(10) == 1024;
    WidthIs(true, 16, 256, 9, 10);
    WidthIs(true, 16, 0, 9, 9);
    hide Width;
  }

  /** Codes have nine bits again behind the clear code, and the chunk ends where these end. */
  lemma ClearedIsFound(data: seq<byte>)
    requires data == ClearedFile()
    ensures CalculateChunk(data, 0) == Ok((0, 294))
  {
    hide CalculateChunk, PlaceOf, Behind, Field;
    ClearedBytes(data);
    var t := Stream(data, true, 16, 303);
    var zeros: seq<nat> := Zeros(256);
    var lists := [zeros, [0x41]];
    ClearedPlaces(t);
    forall j | 0 <= j < 256
      ensures InFile(t, PlaceOf(t, Origin(3, 3), j)) && CodeAt(t, PlaceOf(t, Origin(3, 3), j)) == 0
    {
      ZeroCodes(t, j);
    }
    assert lists[1..] == [[0x41]];
    assert Written(t, Origin(293, 301), [[0x41]]);
    assert Written(t, Origin(3, 3), lists);
    assert LastOrigin(t, Origin(3, 3), lists) == Origin(293, 301);
    WrittenIsFound(data, 0, t, lists);
  }
}
