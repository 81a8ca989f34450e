/**
 The decoder as the loop of the program: a bit buffer, and an array that links every dictionary entry to
 the entry it extends.  It is shown to follow the machine that reads the bit stream in place and keeps the
 dictionary as strings.
 */
module LzwDecoder {
  import opened Bytes
  import opened Files
  import opened Lzw

  // ---- the bit buffer ----

  lemma {:induction false} FieldSplits(data: seq<byte>, base: nat, i: nat, n: nat, m: nat)
    requires 8 * base + i + n + m <= 8 * |data|
    ensures Field(data, base, i, n + m) == Field(data, base, i, n) + Pow2(n) * Field(data, base, i + n, m)
    decreases n, 1
  {
    hide *;
    if n == 0 {
      NothingInFront(data, base, i, m);
    } else {
      FieldSplitsMore(data, base, i, n, m);
    }
  }

  lemma NothingInFront(data: seq<byte>, base: nat, i: nat, m: nat)
    requires 8 * base + i + m <= 8 * |data|
    ensures Field(data, base, i, 0) == 0 && Pow2(0) == 1
    ensures Field(data, base, i, m) == Field(data, base, i, 0) + Pow2(0) * Field(data, base, i, m)
  {
  }

  lemma {:induction false} FieldSplitsMore(data: seq<byte>, base: nat, i: nat, n: nat, m: nat)
    requires n > 0 && 8 * base + i + n + m <= 8 * |data|
    ensures Field(data, base, i, n + m) == Field(data, base, i, n) + Pow2(n) * Field(data, base, i + n, m)
    decreases n, 0
  {
    hide *;
    FieldStep(data, base, i, n + m);
    FieldStep(data, base, i, n);
    DoublePower(n - 1);
    FieldSplits(data, base, i + 1, n - 1, m);
    Regrouped(Field(data, base, i, n + m), Field(data, base, i, n), Bit(data, base, i),
              Field(data, base, i + 1, n - 1), Pow2(n - 1), Pow2(n), Field(data, base, i + n, m));
  }

  lemma FieldStep(data: seq<byte>, base: nat, i: nat, n: nat)
    requires n > 0 && 8 * base + i + n <= 8 * |data|
    ensures Field(data, base, i, n) == Bit(data, base, i) + 2 * Field(data, base, i + 1, n - 1)
  {
  }

  lemma Regrouped(whole: nat, front: nat, bit: nat, low: nat, p: nat, q: nat, high: nat)
    requires whole == bit + 2 * (low + p * high) && front == bit + 2 * low && q == 2 * p
    ensures whole == front + q * high
  {
  }

  lemma {:induction false} ByteField(data: seq<byte>, base: nat, k: nat, offset: nat)
    requires offset <= 8 && base + k < |data|
    ensures Field(data, base, 8 * k + offset, 8 - offset) == data[base + k] / Pow2(offset)
    decreases 8 - offset
  {
    hide Bit;
    var b: nat := data[base + k];
    if offset == 8 {
      PowersOfAByte();
    } else {
      ByteField(data, base, k, offset + 1);
      HalvedQuotient(b, Pow2(offset));
      BitOfByte(data, base, k, offset);
    }
  }

  lemma BitOfByte(data: seq<byte>, base: nat, k: nat, offset: nat)
    requires offset < 8 && base + k < |data|
    ensures (8 * k + offset) / 8 == k && Bit(data, base, 8 * k + offset) == data[base + k] / Pow2(offset) % 2
  {
  }

  lemma PowersOfAByte()
    ensures Pow2(8) == 256 && Pow2(0) == 1
  {
    assert Pow2(4) == 16;
  }

  lemma HalvedQuotient(x: nat, d: nat)
    requires d > 0
    ensures x / d == x / d % 2 + 2 * (x / (2 * d))
  {
    var q, r := x / d, x % d;
    assert x == q * d + r;
    HalfTimes(q, d);
    DivisionIs(x, 2 * d, q / 2, q % 2 * d + r);
  }

  lemma HalfTimes(q: nat, d: nat)
    requires d > 0
    ensures q * d == (q / 2) * (2 * d) + q % 2 * d && q % 2 * d <= d
  {
    var h, b := q / 2, q % 2;
    assert q == 2 * h + b;
    assert (2 * h + b) * d == h * (2 * d) + b * d;
  }

  /** The buffer holds the bits that were read and not used. */
  lemma Refilled(data: seq<byte>, base: nat, used: nat, left: nat)
    requires (used + left) % 8 == 0 && base + (used + left) / 8 < |data|
    ensures 8 * base + used + left + 8 <= 8 * |data|
    ensures Field(data, base, used, left) + data[base + (used + left) / 8] * Pow2(left) ==
            Field(data, base, used, left + 8)
  {
    hide Field, Pow2;
    FieldSplits(data, base, used, left, 8);
    ByteField(data, base, (used + left) / 8, 0);
    PowersOfAByte();
  }

  lemma Taken(data: seq<byte>, base: nat, used: nat, n: nat, left: nat)
    requires n <= left && 8 * base + used + left <= 8 * |data|
    ensures Field(data, base, used, left) % Pow2(n) == Field(data, base, used, n)
    ensures Field(data, base, used, left) / Pow2(n) == Field(data, base, used + n, left - n)
  {
    hide Field, Pow2;
    FieldSplits(data, base, used, n, left - n);
    FieldIsSmall(data, base, used, n);
    DivisionIs(Field(data, base, used, left), Pow2(n),
               Field(data, base, used + n, left - n), Field(data, base, used, n));
  }

  // ---- the linked entries ----

  /** Every entry extends the string of an earlier one by a byte, and never that of the reserved one. */
  ghost predicate Chained(prefix: seq<nat>, dict: seq<seq<byte>>, block: bool) {
    && |prefix| == 0x1_0000 && 255 + |dict| < 0x1_0000
    && forall e :: 256 + Low(block) <= e < 256 + |dict| ==> Linked(prefix, dict, block, e)
  }

  ghost predicate Linked(prefix: seq<nat>, dict: seq<seq<byte>>, block: bool, e: nat)
    requires 256 <= e < |prefix| && e < 256 + |dict|
  {
    var p, s := prefix[e], dict[e - 256];
    p < e && (block ==> p != CLEAR) && s != [] && s[..|s| - 1] == Str(dict, p)
  }

  lemma LinkNew(prefix: seq<nat>, dict: seq<seq<byte>>, block: bool, prev: nat, b: byte)
    requires Chained(prefix, dict, block) && 256 + |dict| < 0x1_0000
    requires |dict| >= Low(block) ==> prev <= 255 + |dict| && (block ==> prev != CLEAR)
    ensures Chained(prefix[256 + |dict| := prev], dict + [Str(dict, prev) + [b]], block)
  {
    var next, more := prefix[256 + |dict| := prev], dict + [Str(dict, prev) + [b]];
    forall e | 256 + Low(block) <= e < 256 + |more|
      ensures Linked(next, more, block, e)
    {
      if e < 256 + |dict| {
        assert Linked(prefix, dict, block, e);
      } else {
        assert (Str(dict, prev) + [b])[..|Str(dict, prev)|] == Str(dict, prev);
      }
    }
  }

  lemma LinkStep(prefix: seq<nat>, dict: seq<seq<byte>>, block: bool, code: nat)
    requires Chained(prefix, dict, block) && 256 <= code <= 255 + |dict| && (block ==> code != CLEAR)
    ensures prefix[code] < code && (block ==> prefix[code] != CLEAR)
    ensures First(Str(dict, prefix[code])) == First(Str(dict, code))
  {
    assert Linked(prefix, dict, block, code);
    if prefix[code] >= 256 {
      assert Linked(prefix, dict, block, prefix[code]);
    }
  }

  /** The walk along the links ends at the first byte of the string. */
  method Walk(prefix: array<nat>, start: nat, ghost dict: seq<seq<byte>>, block: bool) returns (code: nat)
    requires Chained(prefix[..], dict, block) && start <= 255 + |dict| && (block ==> start != CLEAR)
    ensures code < 256 && code == First(Str(dict, start))
  {
    hide Linked;
    code := start;
    while code >= 256
      invariant code <= 255 + |dict| && (block ==> code != CLEAR)
      invariant First(Str(dict, code)) == First(Str(dict, start))
    {
      LinkStep(prefix[..], dict, block, code);
      code := prefix[code];
    }
  }

  // ---- the loop ----

  /** Buffer and counters stand for the state of the machine. */
  ghost predicate Stands(data: seq<byte>, s: State, pos: nat, buf: nat, left: nat, nxt: int) {
    && pos == s.Pos() && nxt == s.Nxt() && left == 8 * Octets(s.used) - s.used
    && pos <= |data| && 8 * s.base + s.used + left <= 8 * |data|
    && buf == Field(data, s.base, s.used, left)
  }

  lemma OctetsNeeded(used: nat, bits: nat)
    requires 9 <= bits <= 16
    ensures var left := 8 * Octets(used) - used;
            Octets(used + bits) == Octets(used) + if left + 8 < bits then 2 else 1
  {
  }

  /** After a realignment the buffer is empty. */
  lemma Realigned(data: seq<byte>, s: State, pos: nat, nxt: int)
    requires s.used == 0 && pos == s.base <= |data| && nxt == s.mark
    ensures Stands(data, s, pos, 0, 0, nxt)
  {
  }

  method ReadInt8(file: File) returns (ok: bool, v: nat)
    requires file.Valid()
    modifies file
    ensures file.Valid() && ok == (old(file.pos) < |file.data|)
    ensures ok ==> v == file.data[old(file.pos)] && file.pos == old(file.pos) + 1
  {
    var bytes := file.Read(1);
    if |bytes| != 1 {
      return false, 0;
    }
    return true, bytes[0];
  }

  /** The new entry, and the string it is made from. */
  lemma Extended(t: Stream, s: State, code: nat, prefix: seq<nat>)
    requires Inv(t, s) && s.bits <= 16 && !(code == CLEAR && t.block) && code <= Pow2(s.bits) - 1
    requires Chained(prefix, s.dict, t.block) && Extend(s, code).More?
    ensures var walked := if code > s.End() then s.prev else code;
            && walked <= s.End() && (t.block ==> walked != CLEAR)
            && Extend(s, code).state.last == First(Str(s.dict, walked))
    ensures s.End() < Pow2(s.bits) - 1 ==> s.End() + 1 < 0x1_0000
    ensures var next := Extend(s, code).state;
            var full := s.End() >= Pow2(s.bits) - 1;
            && Chained(if full then prefix else prefix[s.End() + 1 := s.prev], next.dict, t.block)
            && next.End() == if full then s.End() else s.End() + 1
  {
    hide Str, First, AllNonempty, Pow2;
    PowerLimit(s.bits);
    if s.End() < Pow2(s.bits) - 1 {
      LinkNew(prefix, s.dict, t.block, s.prev, First(Str(s.dict, if code > s.End() then s.prev else code)));
    }
  }

  lemma {:induction false} PowerLimit(n: nat)
    requires n <= 16
    ensures Pow2(n) <= 0x1_0000
    decreases 16 - n
  {
    if n == 16 {
      Pow2Plus(8, 8);
      PowersOfAByte();
    } else {
      PowerLimit(n + 1);
    }
  }

  lemma DoublePower(n: nat)
    ensures Pow2(n + 1) == 2 * Pow2(n)
  {
  }

  lemma RunStep(t: Stream, s: State)
    requires s.bits >= 9 && s.Nxt() < t.maxLen
    ensures Step(t, s).Bad? ==> Run(t, s) == None
    ensures Step(t, s).Stop? ==> Run(t, s) == Some(Step(t, s).state)
    ensures Step(t, s).More? ==> Step(t, s).state.bits >= 9 && Run(t, s) == Run(t, Step(t, s).state)
    ensures Step(t, s).More? ==> Step(t, s).state.Nxt() > s.Nxt()
  {
    hide Step;
    StepAdvances(t, s);
  }

  lemma Begins(data: seq<byte>, start: nat, block: bool, prev: nat, prefix: seq<nat>)
    requires start + HEADER_LEN + 2 <= |data| && |prefix| == 0x1_0000
    ensures Stands(data, FirstState(start, block, prev), start + HEADER_LEN + 2,
                   Field(data, start + HEADER_LEN, 9, 7), 7, 5)
    ensures Chained(prefix, FirstState(start, block, prev).dict, block)
  {
    hide Field;
  }

  lemma RunIsOver(t: Stream, s: State)
    requires s.bits >= 9 && s.Nxt() >= t.maxLen
    ensures Run(t, s) == Some(s)
  {
  }

  lemma FirstCode(data: seq<byte>, base: nat)
    requires base + 2 <= |data|
    ensures var b0: nat, b1: nat := data[base], data[base + 1];
            var b := b0 + 0x100 * b1;
            b % 0x200 == Field(data, base, 0, 9) && b / 0x200 == Field(data, base, 9, 7)
  {
    hide Field;
    ByteField(data, base, 0, 0);
    ByteField(data, base, 1, 0);
    FieldSplits(data, base, 0, 8, 8);
    PowersOfAByte();
    PowersUpTo9();
    Taken(data, base, 0, 9, 16);
  }

  lemma InvFacts(t: Stream, s: State)
    requires Inv(t, s)
    ensures 9 <= s.bits <= t.maxBits && s.Pos() <= |t.data|
  {
  }

  lemma InvForAnyLast(t: Stream, s: State, last: nat)
    requires Inv(t, s)
    ensures Inv(t, s.(last := last))
  {
    hide AllNonempty, Pow2;
  }

  /** The variables of the decoding loop. */
  class Decoder {
    const file: File
    const prefix: array<nat>
    const block: bool
    const maxBits: nat
    const maxLen: int
    var buf: nat
    var left: nat
    var mask: int
    var bits: nat
    var end: nat
    var prev: nat
    var nxt: int
    var mark: int
    var code: nat

    ghost function T(): Stream {
      Stream(file.data, block, maxBits, maxLen)
    }

    /** The variables stand for the state `s` of the machine. */
    ghost predicate Holds(s: State)
      reads this, file, prefix
    {
      && file.Valid() && Stands(file.data, s, file.pos, buf, left, nxt)
      && bits == s.bits && mask == Pow2(bits) - 1 && end == s.End()
      && prev == s.prev && mark == s.mark && code == s.last
      && 10 <= maxBits <= 16 && prefix.Length == 0x1_0000 && Inv(T(), s) && Chained(prefix[..], s.dict, block)
    }

    /** Before the first code of the loop: nine bits a code, and the first code is a literal. */
    constructor (file: File, start: nat, block: bool, maxBits: nat, maxLen: int, buf: nat, prev: nat)
      requires file.Valid() && file.pos == start + HEADER_LEN + 2 && 10 <= maxBits <= 16 && prev <= 255
      requires buf == Field(file.data, start + HEADER_LEN, 9, 7)
      ensures Holds(FirstState(start, block, prev)) && fresh(prefix)
      ensures this.file == file && T() == Stream(file.data, block, maxBits, maxLen)
    {
      hide Field;
      this.file, this.block, this.maxBits, this.maxLen, this.buf, this.prev := file, block, maxBits, maxLen, buf, prev;
      prefix := new nat[0x1_0000](_ => 0);
      end := if block then 256 else 255;
      bits, mask, code := 9, 0x1FF, 0;
      left := 16 - 9;
      mark, nxt := 3, 5;
      new;
      FirstInv(T(), start, prev);
      PowersUpTo9();
      Begins(file.data, start, block, prev, prefix[..]);
    }

    /** Makes codes a bit longer if the dictionary will be full; `stop` when the input ends before that. */
    method WidenCodes(ghost s: State) returns (stop: bool)
      requires Holds(s) && nxt < maxLen
      modifies this`buf, this`left, this`mask, this`bits, this`nxt, this`mark
      ensures stop <==> Widen(T(), s).None?
      ensures if stop then Holds(s) else nxt < maxLen && Holds(Widen(T(), s).value)
    {
      hide Field, Chained, AllNonempty, Octets;
      if end >= mask && bits < maxBits {
        var remaining := (nxt - mark) % bits;
        if remaining != 0 {
          remaining := bits - remaining;
          if remaining >= maxLen - nxt {
            return true;
          }
          nxt := nxt + remaining;
        }
        buf, left := 0, 0;
        mark := nxt;
        bits := bits + 1;
        mask := 2 * mask + 1;
        Realigned(file.data, Widen(T(), s).value, file.pos, nxt);
        WidenKeeps(T(), s);
      }
      stop := false;
    }

    /** Puts the next byte above the bits that are left. */
    method Refill(ghost base: nat, ghost used: nat) returns (ok: bool)
      requires file.Valid() && (used + left) % 8 == 0 && file.pos == base + (used + left) / 8
      requires 8 * base + used + left <= 8 * |file.data| && buf == Field(file.data, base, used, left)
      modifies this`buf, this`left, this`nxt, file
      ensures file.Valid() && ok == (old(file.pos) < |file.data|)
      ensures ok ==> left == old(left) + 8 && nxt == old(nxt) + 1 && file.pos == old(file.pos) + 1
      ensures ok ==> 8 * base + used + left <= 8 * |file.data| && buf == Field(file.data, base, used, left)
    {
      hide Field, Pow2;
      var b;
      ok, b := ReadInt8(file);
      if !ok {
        return;
      }
      Refilled(file.data, base, used, left);
      buf := buf + b * Pow2(left);
      nxt := nxt + 1;
      left := left + 8;
    }

    /** Reads one byte, or two when one is not enough, and takes a code from the buffer. */
    method TakeCode(ghost s: State) returns (ok: bool)
      requires Holds(s) && nxt < maxLen
      modifies this`buf, this`left, this`nxt, this`code, file
      ensures file.Valid() && ReadCode(T(), s) == if ok then Some(code) else None
      ensures ok ==> code <= mask && Holds(s.(used := s.used + s.bits, last := code))
    {
      hide Field, Pow2, Chained, AllNonempty, Inv;
      InvFacts(T(), s);
      OctetsNeeded(s.used, bits);
      ok := Refill(s.base, s.used);
      if !ok {
        return;
      }
      if left < bits {
        if nxt == maxLen {
          return false;
        }
        ok := Refill(s.base, s.used);
        if !ok {
          return;
        }
      }
      Taken(file.data, s.base, s.used, bits, left);
      code := buf % (mask + 1);
      buf := buf / Pow2(bits);
      left := left - bits;
      CodeRead(T(), s);
      InvForAnyLast(T(), s.(used := s.used + s.bits), code);
    }

    /** Empties the dictionary; `stop` when the input ends before the next aligned code. */
    method ClearTable(ghost s: State) returns (stop: bool)
      requires Holds(s) && block && code == CLEAR
      modifies this`buf, this`left, this`mask, this`bits, this`end, this`nxt, this`mark
      ensures Clear(T(), s) == if stop then Stop(Clear(T(), s).state) else More(Clear(T(), s).state)
      ensures Holds(Clear(T(), s).state)
    {
      hide Field, AllNonempty, Octets, Inv, Pow2;
      InvFacts(T(), s);
      var remaining := (nxt - mark) % bits;
      if remaining != 0 {
        remaining := bits - remaining;
        if remaining > maxLen - nxt {
          return true;
        }
        nxt := nxt + remaining;
      }
      buf, left := 0, 0;
      mark := nxt;
      bits, mask := 9, 0x1FF;
      end := 255;
      stop := false;
      ClearKeeps(T(), s);
      PowersUpTo9();
      Realigned(file.data, Clear(T(), s).state, file.pos, nxt);
    }

    /** Walks along the links to the first byte of the string, and links a new entry. */
    method FollowCode(ghost s: State) returns (ok: bool)
      requires Holds(s) && !(block && code == CLEAR) && code <= mask
      modifies this`code, this`end, this`prev, prefix
      ensures if ok then Extend(s, s.last).More? && Holds(Extend(s, s.last).state) else Extend(s, s.last) == Bad
    {
      hide Field, Str, First, AllNonempty, Chained, Octets, Pow2;
      var temp := code;
      if code > end {
        if code != end + 1 || prev > end {
          return false;
        }
        code := prev;
      }
      Extended(T(), s, temp, prefix[..]);
      ExtendKeeps(T(), s, temp);
      code := Walk(prefix, code, s.dict, block);
      if end < mask {
        end := end + 1;
        prefix[end] := prev;
      }
      prev := temp;
      ok := true;
    }
  }

  /** The steps of the machine, put together from the parts. */
  lemma StepIs(t: Stream, s: State, code: nat)
    requires s.bits > 0 && Widen(t, s).Some?
    ensures Widen(t, s).value.bits > 0
    ensures var w := Widen(t, s).value;
            ReadCode(t, w) == None ==> Step(t, s) == Bad
    ensures var w := Widen(t, s).value;
            var r := w.(used := w.used + w.bits, last := code);
            ReadCode(t, w) == Some(code) ==>
              Step(t, s) == if code == CLEAR && t.block then Clear(t, r) else Extend(r, code)
  {
    hide ReadCode, Str, First, Skip, Pow2;
  }

  lemma NoWiden(t: Stream, s: State)
    requires s.bits > 0 && Widen(t, s).None?
    ensures Step(t, s) == Stop(s)
  {
  }

  /** The loop of the program: where it ends, the machine ends. */
  method Loop(d: Decoder, ghost s0: State) returns (ok: bool, ghost last: State)
    requires d.Holds(s0)
    modifies d, d.file, d.prefix
    ensures Run(d.T(), s0) == if ok then Some(last) else None
    ensures ok ==> d.Holds(last)
    ensures d.file.Valid()
  {
    hide Widen, ReadCode, Clear, Extend, Step, Run, AllNonempty, Chained, Field, Octets, Pow2;
    var t := d.T();
    ghost var s := s0;
    while d.nxt < d.maxLen
      invariant d.Holds(s) && Run(t, s0) == Run(t, s)
      decreases d.maxLen - s.Nxt()
    {
      RunStep(t, s);
      var stop := d.WidenCodes(s);
      if stop {
        NoWiden(t, s);
        return true, s;
      }
      ghost var w := Widen(t, s).value;
      var read := d.TakeCode(w);
      StepIs(t, s, d.code);
      if !read {
        return false, s;
      }
      ghost var r := w.(used := w.used + w.bits, last := d.code);
      if d.code == CLEAR && d.block {
        stop := d.ClearTable(r);
        s := Clear(t, r).state;
        if stop {
          return true, s;
        }
      } else {
        var valid := d.FollowCode(r);
        if !valid {
          return false, s;
        }
        s := Extend(r, r.last).state;
      }
    }
    RunIsOver(t, s);
    return true, s;
  }

  /** From the first code on, which is a literal. */
  method Decode(file: File, start: nat, block: bool, maxBits: nat, maxLen: int) returns (r: Result<int>)
    requires file.Valid() && file.pos == start + HEADER_LEN && 10 <= maxBits <= 16
    modifies file
    ensures file.Valid()
    ensures r == match Lzw.Decode(Stream(file.data, block, maxBits, maxLen), start)
                 case Err(e) => Err(e)
                 case Ok(s) => Ok(EndOffset(s))
  {
    hide Run, Field, Octets;
    var bytes := file.Read(2);
    if |bytes| != 2 {
      return Err(InvalidInputFormat);
    }
    var b0: nat, b1: nat := bytes[0], bytes[1];
    var buf := b0 + 0x100 * b1;
    FirstCode(file.data, start + HEADER_LEN);
    var prev := buf % 0x200;
    if prev > 255 {
      return Err(InvalidInputFormat);
    }
    var d := new Decoder(file, start, block, maxBits, maxLen, buf / 0x200, prev);
    var ok, last := Loop(d, FirstState(start, block, prev));
    if !ok {
      return Err(InvalidInputFormat);
    }
    return Ok(if d.code == d.nxt - 1 then file.pos else file.pos - 1);
  }

  /** The end of the stream that starts at an offset, or an error. */
  method Unlzw(file: File, startOffset: int, maxLen: int) returns (r: Result<int>)
    requires file.Valid()
    modifies file
    ensures file.Valid() && r == Lzw.Unlzw(file.data, startOffset, maxLen)
  {
    hide Lzw.Decode, EndOffset;
    var ok := file.Seek(startOffset);
    if !ok {
      return Err(SeekError);
    }
    var header := file.Read(HEADER_LEN);
    if |header| != HEADER_LEN {
      return Err(EOFError);
    }
    var flags: nat := header[2];
    if flags / 0x20 % 4 != 0 {
      return Err(InvalidInputFormat);
    }
    var maxBits := flags % 0x20;
    if !(9 <= maxBits <= 16) {
      return Err(InvalidInputFormat);
    }
    if maxBits == 9 {
      maxBits := 10;
    }
    r := Decode(file, startOffset, flags / 0x80 == 1, maxBits, maxLen);
  }

  /** The range of the stream in its file. */
  method CalculateChunk(file: File, startOffset: nat) returns (r: Result<(int, int)>)
    requires file.Valid()
    modifies file
    ensures file.Valid() && r == Lzw.CalculateChunk(file.data, startOffset)
  {
    hide Lzw.Unlzw;
    var end := Unlzw(file, startOffset, |file.data|);
    if end.Err? {
      return Err(end.error);
    }
    if end.value - startOffset <= 5 {
      return Err(InvalidInputFormat);
    }
    return Ok((startOffset, end.value));
  }
}
