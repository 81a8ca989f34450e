/**
 Streams of Unix compress: codes of 9 to 16 bits, a dictionary of byte strings that grows with every
 code, and a clear code.  The machine here reads each code at its place in the bit stream and keeps the
 dictionary as strings.
 */
module Lzw {
  import opened Bytes
  import opened Files

  const CLEAR := 256

  // ---- the bit stream ----

  /** Bit `i` of the bytes from `base` on, counted from the low end of each byte. */
  function Bit(data: seq<byte>, base: nat, i: nat): nat
    requires base + i / 8 < |data|
  {
    data[base + i / 8] / Pow2(i % 8) % 2
  }

  /** The number in the `n` bits from bit `i` on, lowest first. */
  function Field(data: seq<byte>, base: nat, i: nat, n: nat): nat
    requires 8 * base + i + n <= 8 * |data|
    decreases n
  {
    if n == 0 then 0 else Bit(data, base, i) + 2 * Field(data, base, i + 1, n - 1)
  }

  /** The bytes it takes to hold a number of bits. */
  function Octets(bits: nat): nat {
    (bits + 7) / 8
  }

  // ---- the machine ----

  /**
   `used` bits have been read since the stream was last realigned, at `base` in the file and at `mark` in
   the count of the decoder; `last` is what the variable `code` of the program holds.
   */
  datatype State = State(base: nat, mark: nat, used: nat, bits: nat, dict: seq<seq<byte>>, prev: nat, last: nat) {
    function Pos(): nat { base + Octets(used) }
    function Nxt(): nat { mark + Octets(used) }
    function End(): nat { 255 + |dict| }
  }

  datatype Stream = Stream(data: seq<byte>, block: bool, maxBits: nat, maxLen: int)

  function Str(dict: seq<seq<byte>>, code: nat): seq<byte> {
    if code < 256 then [code] else if code - 256 < |dict| then dict[code - 256] else []
  }

  function First(s: seq<byte>): byte {
    if s == [] then 0 else s[0]
  }

  /** What is missing to a multiple of the code size. */
  function Skip(n: nat, bits: nat): (k: nat)
    requires bits > 0
    ensures k < bits
  {
    if n % bits == 0 then 0 else bits - n % bits
  }

  datatype Next = More(state: State) | Stop(state: State) | Bad

  /** Codes become longer when the next entry would not fit; `None` when the input ends before that. */
  function Widen(t: Stream, s: State): (r: Option<State>)
    requires s.bits > 0
    ensures r.Some? ==> r.value.bits >= s.bits
  {
    if s.End() >= Pow2(s.bits) - 1 && s.bits < t.maxBits then
      var skip := Skip(Octets(s.used), s.bits);
      if skip != 0 && skip >= t.maxLen - s.Nxt() then None
      else Some(s.(base := s.Pos(), mark := s.Nxt() + skip, used := 0, bits := s.bits + 1))
    else Some(s)
  }

  /** The next code, unless the input ends in the middle of it. */
  function ReadCode(t: Stream, s: State): Option<nat> {
    if s.base + Octets(s.used + s.bits) > |t.data| || s.mark + Octets(s.used + s.bits) > t.maxLen then None
    else
      EnoughBytes(s.base, s.used + s.bits, |t.data|);
      Some(Field(t.data, s.base, s.used, s.bits))
  }

  lemma EnoughBytes(base: nat, bits: nat, size: nat)
    requires base + Octets(bits) <= size
    ensures 8 * base + bits <= 8 * size
  {
  }

  /** An empty dictionary and nine bits again. */
  function Clear(t: Stream, s: State): Next
    requires s.bits > 0
  {
    var skip := Skip(Octets(s.used), s.bits);
    if skip != 0 && skip > t.maxLen - s.Nxt() then Stop(s.(last := CLEAR))
    else More(s.(base := s.Pos(), mark := s.Nxt() + skip, used := 0, bits := 9, dict := [], last := CLEAR))
  }

  /** The dictionary gets the string before, with the first byte of the present one. */
  function Extend(s: State, code: nat): Next {
    if code > s.End() && (code != s.End() + 1 || s.prev > s.End()) then Bad
    else
      var first := First(Str(s.dict, if code > s.End() then s.prev else code));
      More(s.(prev := code, last := first,
              dict := if s.End() < Pow2(s.bits) - 1 then s.dict + [Str(s.dict, s.prev) + [first]] else s.dict))
  }

  function Step(t: Stream, s: State): Next
    requires s.bits > 0
  {
    match Widen(t, s)
    case None => Stop(s)
    case Some(w) =>
      match ReadCode(t, w)
      case None => Bad
      case Some(code) =>
        if code == CLEAR && t.block then Clear(t, w.(used := w.used + w.bits))
        else Extend(w.(used := w.used + w.bits), code)
  }

  /** The state in which the loop of the program ends. */
  function Run(t: Stream, s: State): (r: Option<State>)
    requires s.bits >= 9
    decreases t.maxLen - s.Nxt()
  {
    if s.Nxt() >= t.maxLen then Some(s)
    else
      StepAdvances(t, s);
      match Step(t, s)
      case Bad => None
      case Stop(end) => Some(end)
      case More(next) => Run(t, next)
  }

  lemma MoreOctets(used: nat, bits: nat)
    requires bits >= 8
    ensures Octets(used + bits) > Octets(used)
  {
  }

  lemma StepAdvances(t: Stream, s: State)
    requires s.bits >= 9
    ensures Step(t, s).More? ==> Step(t, s).state.Nxt() > s.Nxt() && Step(t, s).state.bits >= 9
  {
    hide Skip, Field, Pow2, Str, First;
    var w := Widen(t, s);
    if w.Some? {
      MoreOctets(w.value.used, w.value.bits);
    }
  }

  // ---- the end of a stream ----

  const HEADER_LEN := 3

  function FirstState(start: nat, block: bool, prev: nat): State {
    State(start + HEADER_LEN, HEADER_LEN, 9, 9, if block then [[]] else [], prev, 0)
  }

  /** The flags say whether there are clear codes, and how long codes become; 9 does not really mean 9. */
  function StreamOf(data: seq<byte>, flags: byte, maxLen: int): (r: Option<Stream>)
    ensures r.Some? ==> 10 <= r.value.maxBits <= 16
  {
    var maxBits := flags % 0x20;
    if flags / 0x20 % 4 != 0 || !(9 <= maxBits <= 16) then None
    else Some(Stream(data, flags / 0x80 == 1, if maxBits == 9 then 10 else maxBits, maxLen))
  }

  /** The flags that are accepted are the numbers 9 to 16, and these with 128 added for clear codes. */
  lemma FlagsAre(data: seq<byte>, flags: byte, maxLen: int)
    ensures StreamOf(data, flags, maxLen) ==
            if 9 <= flags <= 16 then Some(Stream(data, false, if flags == 9 then 10 else flags, maxLen))
            else if 137 <= flags <= 144 then Some(Stream(data, true, if flags == 137 then 10 else flags - 128, maxLen))
            else None
  {
  }

  function Initial(t: Stream, start: nat): Result<State> {
    if start + HEADER_LEN + 2 > |t.data| then Err(InvalidInputFormat)
    else
      var prev := Field(t.data, start + HEADER_LEN, 0, 9);
      if prev > 255 then Err(InvalidInputFormat) else Ok(FirstState(start, t.block, prev))
  }

  function Decode(t: Stream, start: nat): Result<State> {
    match Initial(t, start)
    case Err(e) => Err(e)
    case Ok(s) => match Run(t, s) case None => Err(InvalidInputFormat) case Some(end) => Ok(end)
  }

  /** The state at the end of the stream that starts at an offset. */
  function FinalState(data: seq<byte>, start: int, maxLen: int): Result<State> {
    if !(0 <= start <= |data|) then Err(SeekError)
    else if start + HEADER_LEN > |data| then Err(EOFError)
    else
      match StreamOf(data, data[start + 2], maxLen)
      case None => Err(InvalidInputFormat)
      case Some(t) => Decode(t, start)
  }

  function EndOffset(s: State): int {
    if s.last == s.Nxt() - 1 then s.Pos() else s.Pos() - 1
  }

  function Unlzw(data: seq<byte>, start: int, maxLen: int): Result<int> {
    match FinalState(data, start, maxLen)
    case Err(e) => Err(e)
    case Ok(s) => Ok(EndOffset(s))
  }

  // ---- what every run keeps ----

  /** The first entry of the dictionary that is in use; entry 256 is reserved when there are clear codes. */
  function Low(block: bool): nat {
    if block then 1 else 0
  }

  ghost predicate AllNonempty(dict: seq<seq<byte>>, low: nat) {
    forall i :: low <= i < |dict| ==> dict[i] != []
  }

  ghost predicate Inv(t: Stream, s: State) {
    && 9 <= s.bits <= t.maxBits && s.End() <= Pow2(s.bits) - 1
    && (t.block ==> s.prev != CLEAR)
    && (!t.block || s.dict != [] ==> s.prev <= s.End())
    && AllNonempty(s.dict, Low(t.block))
    && s.Pos() <= |t.data|
  }

  lemma PowersUpTo9()
    ensures Pow2(9) == 512
  {
    assert Pow2(3) == 8;
    assert Pow2(6) == 64;
  }

  lemma FirstInv(t: Stream, start: nat, prev: nat)
    requires 10 <= t.maxBits && prev <= 255 && start + HEADER_LEN + 2 <= |t.data|
    ensures Inv(t, FirstState(start, t.block, prev))
  {
    PowersUpTo9();
  }

  /** A code just past the dictionary only comes when the string before it is known: the second check is idle. */
  lemma PrevCheckIsIdle(t: Stream, s: State, code: nat)
    requires Inv(t, s) && !(code == CLEAR && t.block) && code == s.End() + 1
    ensures s.prev <= s.End()
  {
  }

  lemma ExtendKeeps(t: Stream, s: State, code: nat)
    requires Inv(t, s) && !(code == CLEAR && t.block) && Extend(s, code).More?
    requires code <= Pow2(s.bits) - 1
    ensures Inv(t, Extend(s, code).state)
  {
    hide Pow2, First;
    var next := Extend(s, code).state;
    forall i | Low(t.block) <= i < |next.dict|
      ensures next.dict[i] != []
    {
    }
  }

  lemma WidenKeeps(t: Stream, s: State)
    requires Inv(t, s) && Widen(t, s).Some?
    ensures Inv(t, Widen(t, s).value)
  {
    hide Skip;
    assert Pow2(s.bits + 1) == 2 * Pow2(s.bits);
  }

  lemma ClearKeeps(t: Stream, s: State)
    requires t.block && Inv(t, s) && Clear(t, s).More?
    ensures Inv(t, Clear(t, s).state)
  {
    hide Skip;
    PowersUpTo9();
  }

  lemma {:induction false} FieldIsSmall(data: seq<byte>, base: nat, i: nat, n: nat)
    requires 8 * base + i + n <= 8 * |data|
    ensures Field(data, base, i, n) < Pow2(n)
    decreases n
  {
    if n > 0 {
      FieldIsSmall(data, base, i + 1, n - 1);
    }
  }

  lemma StepKeeps(t: Stream, s: State)
    requires Inv(t, s) && Step(t, s).More?
    ensures Inv(t, Step(t, s).state)
  {
    hide Clear, Extend, Widen, AllNonempty, Pow2;
    WidenKeeps(t, s);
    var w := Widen(t, s).value;
    var code := ReadCode(t, w).value;
    var r := w.(used := w.used + w.bits);
    CodeRead(t, w);
    if code == CLEAR && t.block {
      ClearKeeps(t, r);
    } else {
      ExtendKeeps(t, r, code);
    }
  }

  lemma CodeRead(t: Stream, w: State)
    requires Inv(t, w) && ReadCode(t, w).Some?
    ensures Inv(t, w.(used := w.used + w.bits)) && ReadCode(t, w).value <= Pow2(w.bits) - 1
  {
    EnoughBytes(w.base, w.used + w.bits, |t.data|);
    FieldIsSmall(t.data, w.base, w.used, w.bits);
  }

  /** The count of the decoder runs ahead of the file, but never beyond the limit. */
  ghost predicate Paced(t: Stream, start: nat, s: State) {
    start + 5 <= s.Pos() <= start + s.Nxt() && s.Nxt() <= t.maxLen
  }

  lemma StepPaced(t: Stream, start: nat, s: State)
    requires s.bits > 0 && Paced(t, start, s) && s.Nxt() < t.maxLen && !Step(t, s).Bad?
    ensures Paced(t, start, Step(t, s).state)
    ensures Step(t, s).Stop? ==> t.maxLen - Step(t, s).state.Nxt() < Max(s.bits, 9)
  {
    hide Skip, Field, Pow2, Str, First;
  }

  ghost predicate Ended(t: Stream, start: nat, end: State) {
    Inv(t, end) && Paced(t, start, end) && t.maxLen - end.Nxt() < 16
  }

  lemma StopKeeps(t: Stream, s: State)
    requires Inv(t, s) && Step(t, s).Stop?
    ensures Inv(t, Step(t, s).state)
  {
    hide AllNonempty, Pow2, Skip;
    if Widen(t, s).Some? {
      WidenKeeps(t, s);
      CodeRead(t, Widen(t, s).value);
    }
  }

  /** What holds wherever a run ends: the decoder stops within 16 bytes of its limit, or rejects. */
  lemma {:induction false} RunEnds(t: Stream, start: nat, s: State)
    requires Inv(t, s) && Paced(t, start, s) && t.maxBits <= 16
    ensures Run(t, s).Some? ==> Ended(t, start, Run(t, s).value)
    decreases t.maxLen - s.Nxt()
  {
    hide Paced, AllNonempty, Step;
    if s.Nxt() < t.maxLen && !Step(t, s).Bad? {
      StepAdvances(t, s);
      StepPaced(t, start, s);
      if Step(t, s).More? {
        StepKeeps(t, s);
        RunEnds(t, start, Step(t, s).state);
      } else {
        StopKeeps(t, s);
      }
    }
  }

  lemma DecodeEnds(t: Stream, start: nat)
    requires 10 <= t.maxBits <= 16 && t.maxLen >= 5 && Decode(t, start).Ok?
    ensures Ended(t, start, Decode(t, start).value)
  {
    hide Inv, Ended, Run;
    var s := Initial(t, start).value;
    FirstInv(t, start, s.prev);
    RunEnds(t, start, s);
  }

  /** The input that is left over at the end is shorter than a code; the file may be read less far than counted. */
  lemma FinalStateIs(data: seq<byte>, start: nat, maxLen: int)
    requires maxLen >= 5
    ensures match FinalState(data, start, maxLen)
            case Err(_) => true
            case Ok(s) =>
              && start + 5 <= s.Pos() <= |data| && s.Pos() <= start + s.Nxt()
              && s.Nxt() <= maxLen < s.Nxt() + 16
  {
    hide Decode, AllNonempty, Pow2;
    if FinalState(data, start, maxLen).Ok? {
      DecodeEnds(StreamOf(data, data[start + 2], maxLen).value, start);
    }
  }

  /** An end offset lies behind the header, inside the limit and inside the file. */
  lemma EndIsInside(data: seq<byte>, start: nat, maxLen: int)
    requires maxLen >= 5
    ensures match Unlzw(data, start, maxLen)
            case Err(_) => true
            case Ok(end) => start + 4 <= end <= start + maxLen && end <= |data|
  {
    hide FinalState;
    FinalStateIs(data, start, maxLen);
  }

  /** The handler passes the size of the whole file as the limit, wherever in the file the stream starts. */
  function CalculateChunk(data: seq<byte>, start: int): Result<(int, int)> {
    match Unlzw(data, start, |data|)
    case Err(e) => Err(e)
    case Ok(end) => if end - start <= 5 then Err(InvalidInputFormat) else Ok((start, end))
  }

  /** Bytes that realigning the stream has counted without reading them. */
  function Skipped(start: nat, s: State): int {
    start + s.Nxt() - s.Pos()
  }

  /**
   The limit counts from the start of the stream.  A stream further back in its file is read to the end of
   the file before its limit is reached, and then rejected, unless enough bytes were skipped on the way.
   */
  lemma StartCostsSkips(data: seq<byte>, start: nat)
    requires |data| >= 5
    ensures CalculateChunk(data, start).Ok? ==> Skipped(start, FinalState(data, start, |data|).value) > start - 16
  {
    hide FinalState;
    FinalStateIs(data, start, |data|);
  }

  // ---- for a fixed limit, it does not matter where in its file a stream stands ----

  function Moved(s: State, offset: nat): State {
    s.(base := s.base + offset)
  }

  function MovedNext(n: Next, offset: nat): Next {
    match n
    case More(s) => More(Moved(s, offset))
    case Stop(s) => Stop(Moved(s, offset))
    case Bad => Bad
  }

  lemma {:induction false} FieldMoves(prefix: seq<byte>, data: seq<byte>, base: nat, i: nat, n: nat)
    requires 8 * base + i + n <= 8 * |data|
    ensures Field(prefix + data, base + |prefix|, i, n) == Field(data, base, i, n)
    decreases n
  {
    if n > 0 {
      hide Pow2;
      FieldMoves(prefix, data, base, i + 1, n - 1);
    }
  }

  lemma WidenMoves(prefix: seq<byte>, t: Stream, s: State)
    requires s.bits > 0
    ensures Widen(t.(data := prefix + t.data), Moved(s, |prefix|)) ==
            match Widen(t, s) case None => None case Some(w) => Some(Moved(w, |prefix|))
  {
    hide Pow2, Skip, Octets;
  }

  lemma ReadMoves(prefix: seq<byte>, t: Stream, s: State)
    ensures ReadCode(t.(data := prefix + t.data), Moved(s, |prefix|)) == ReadCode(t, s)
  {
    hide Field;
    if s.base + Octets(s.used + s.bits) <= |t.data| {
      EnoughBytes(s.base, s.used + s.bits, |t.data|);
      FieldMoves(prefix, t.data, s.base, s.used, s.bits);
    }
  }

  lemma StepMoves(prefix: seq<byte>, t: Stream, s: State)
    requires s.bits > 0
    ensures Step(t.(data := prefix + t.data), Moved(s, |prefix|)) == MovedNext(Step(t, s), |prefix|)
  {
    hide Widen, ReadCode, Pow2, Skip, Str, First, Octets;
    WidenMoves(prefix, t, s);
    if Widen(t, s).Some? {
      ReadMoves(prefix, t, Widen(t, s).value);
    }
  }

  lemma {:induction false} RunMoves(prefix: seq<byte>, t: Stream, s: State)
    requires s.bits >= 9
    ensures Run(t.(data := prefix + t.data), Moved(s, |prefix|)) ==
            match Run(t, s) case None => None case Some(end) => Some(Moved(end, |prefix|))
    decreases t.maxLen - s.Nxt()
  {
    hide Step, Octets;
    if s.Nxt() < t.maxLen {
      StepAdvances(t, s);
      StepAdvances(t.(data := prefix + t.data), Moved(s, |prefix|));
      StepMoves(prefix, t, s);
      if Step(t, s).More? {
        RunMoves(prefix, t, Step(t, s).state);
      }
    }
  }

  lemma FinalStateMoves(prefix: seq<byte>, data: seq<byte>, maxLen: int)
    ensures FinalState(prefix + data, |prefix|, maxLen) ==
            match FinalState(data, 0, maxLen) case Err(e) => Err(e) case Ok(s) => Ok(Moved(s, |prefix|))
  {
    hide Run, Field;
    if |data| >= HEADER_LEN {
      assert (prefix + data)[|prefix| + 2] == data[2];
      var t := StreamOf(data, data[2], maxLen);
      if t.Some? && |data| >= HEADER_LEN + 2 {
        FieldMoves(prefix, data, HEADER_LEN, 0, 9);
        var prev := Field(data, HEADER_LEN, 0, 9);
        RunMoves(prefix, t.value, FirstState(0, t.value.block, prev));
        assert Moved(FirstState(0, t.value.block, prev), |prefix|) == FirstState(|prefix|, t.value.block, prev);
      }
    }
  }

  /** The end moves with the stream, and errors stay the same. */
  lemma StreamMoves(prefix: seq<byte>, data: seq<byte>, maxLen: int)
    ensures Unlzw(prefix + data, |prefix|, maxLen) ==
            match Unlzw(data, 0, maxLen) case Err(e) => Err(e) case Ok(end) => Ok(end + |prefix|)
  {
    hide FinalState;
    FinalStateMoves(prefix, data, maxLen);
  }

  // ---- what stands behind a stream does not matter when the decoder is done before ----

  lemma {:induction false} FieldBefore(data: seq<byte>, suffix: seq<byte>, base: nat, i: nat, n: nat)
    requires 8 * base + i + n <= 8 * |data|
    ensures Field(data + suffix, base, i, n) == Field(data, base, i, n)
    decreases n
  {
    if n > 0 {
      hide Pow2;
      FieldBefore(data, suffix, base, i + 1, n - 1);
    }
  }

  lemma ReadBefore(t: Stream, suffix: seq<byte>, s: State)
    ensures var code := ReadCode(t.(data := t.data + suffix), s);
            ReadCode(t, s) == if s.base + Octets(s.used + s.bits) <= |t.data| then code else None
  {
    hide Field;
    if s.base + Octets(s.used + s.bits) <= |t.data| {
      EnoughBytes(s.base, s.used + s.bits, |t.data|);
      FieldBefore(t.data, suffix, s.base, s.used, s.bits);
    }
  }

  lemma StepGrows(t: Stream, s: State)
    requires s.bits >= 9 && !Step(t, s).Bad?
    ensures s.Pos() <= Step(t, s).state.Pos()
    ensures s.Pos() <= |t.data| ==> Step(t, s).state.Pos() <= |t.data|
  {
    hide Skip, Field, Pow2, Str, First;
  }

  lemma {:induction false} RunGrows(t: Stream, s: State)
    requires s.bits >= 9
    ensures Run(t, s).Some? ==> s.Pos() <= Run(t, s).value.Pos()
    decreases t.maxLen - s.Nxt()
  {
    hide Step, Octets;
    if s.Nxt() < t.maxLen && !Step(t, s).Bad? {
      StepGrows(t, s);
      StepAdvances(t, s);
      if Step(t, s).More? {
        RunGrows(t, Step(t, s).state);
      }
    }
  }

  /** Steps differ only when the code reaches into what stands behind. */
  lemma StepBefore(t: Stream, suffix: seq<byte>, s: State)
    requires s.bits >= 9
    ensures var next := Step(t.(data := t.data + suffix), s);
            Step(t, s) == next || (Step(t, s).Bad? && next.state.Pos() > |t.data|)
  {
    hide Skip, ReadCode, Pow2, Str, First;
    var w := Widen(t, s);
    assert Widen(t.(data := t.data + suffix), s) == w;
    if w.Some? {
      ReadBefore(t, suffix, w.value);
    }
  }

  lemma {:induction false} RunBefore(t: Stream, suffix: seq<byte>, s: State)
    requires s.bits >= 9 && s.Pos() <= |t.data|
    ensures var r := Run(t.(data := t.data + suffix), s);
            Run(t, s) == if r.Some? && r.value.Pos() <= |t.data| then r else None
    decreases t.maxLen - s.Nxt()
  {
    hide Step, Octets;
    if s.Nxt() < t.maxLen {
      var longer := t.(data := t.data + suffix);
      StepBefore(t, suffix, s);
      StepAdvances(t, s);
      StepAdvances(longer, s);
      if Step(t, s).More? {
        StepGrows(t, s);
        RunBefore(t, suffix, Step(t, s).state);
      } else if Step(t, s).Stop? {
        StepGrows(t, s);
      } else if Step(longer, s).More? {
        RunGrows(longer, Step(longer, s).state);
      }
    }
  }

  lemma FinalStateBefore(data: seq<byte>, suffix: seq<byte>, maxLen: int)
    ensures var r := FinalState(data + suffix, 0, maxLen);
            if r.Ok? && r.value.Pos() <= |data| then FinalState(data, 0, maxLen) == r
            else FinalState(data, 0, maxLen).Err?
  {
    hide Run, Field;
    var r := FinalState(data + suffix, 0, maxLen);
    if |data| < HEADER_LEN + 2 {
      if r.Ok? {
        var t := StreamOf(data + suffix, (data + suffix)[2], maxLen).value;
        RunGrows(t, Initial(t, 0).value);
      }
    } else {
      var t := StreamOf(data, data[2], maxLen);
      FieldBefore(data, suffix, HEADER_LEN, 0, 9);
      if t.Some? && Initial(t.value, 0).Ok? {
        RunBefore(t.value, suffix, Initial(t.value, 0).value);
      }
    }
  }

  /**
   The limit counts from the start of the stream, but is the size of the whole file.  So a stream is found
   behind other bytes if and only if it is found at the start with as many bytes behind it instead, and the
   decoder is done without touching them.
   */
  lemma FoundIffDoneInside(prefix: seq<byte>, data: seq<byte>, suffix: seq<byte>)
    requires |prefix| == |suffix|
    ensures var there, here := CalculateChunk(prefix + data, |prefix|), CalculateChunk(data + suffix, 0);
            if here.Ok? && FinalState(data + suffix, 0, |data + suffix|).value.Pos() <= |data|
            then there == Ok((here.value.0 + |prefix|, here.value.1 + |prefix|))
            else there.Err?
  {
    hide FinalState;
    FinalStateMoves(prefix, data, |prefix + data|);
    FinalStateBefore(data, suffix, |prefix + data|);
  }

  // ---- streams without clear codes ----

  /** Without clear codes entry 256 is in use, and the codes of nine bits are one more. */
  function Extra(block: bool, bits: nat): nat {
    if bits == 9 && !block then 1 else 0
  }

  /** The bytes of a stream in front of its codes of a length, unless it is cleared. */
  function InFront(block: bool, bits: nat): nat
    decreases bits
  {
    if bits <= 9 then 0
    else if bits == 10 then if block then 288 else 290
    else InFront(block, bits - 1) + LengthOf(bits - 1)
  }

  /** The bytes that all codes of a length take, half of what they can count. */
  function LengthOf(bits: nat): nat
    requires bits >= 4
  {
    bits * Pow2(bits - 4)
  }

  /** The bytes skipped by then: the codes of nine bits do not fill whole groups when they are one more. */
  function Ahead(block: bool, bits: nat): nat {
    if block || bits <= 9 then 0 else 7
  }

  /** Code `k` of those with a length is the clear code. */
  predicate ClearAt(data: seq<byte>, maxBits: nat, base: nat, bits: nat, k: nat) {
    var at := base + InFront(true, bits);
    && (9 <= bits < maxBits ==> k < Pow2(bits - 1))
    && 8 * at + bits * k + bits <= 8 * |data| && Field(data, at, bits * k, bits) == CLEAR
  }

  ghost predicate NoClearCode(data: seq<byte>, maxBits: nat, base: nat) {
    forall bits: nat, k: nat :: 9 <= bits <= maxBits ==> !ClearAt(data, maxBits, base, bits, k)
  }

  /** No clear codes, or none that occurs. */
  ghost predicate Uncleared(t: Stream, base: nat) {
    t.block ==> NoClearCode(t.data, t.maxBits, base)
  }

  /** Where the codes begin in the file, and the count of the decoder there: behind the header or a clear code. */
  datatype Origin = Origin(base: nat, mark: nat)

  function FirstOrigin(start: nat): Origin {
    Origin(start + HEADER_LEN, HEADER_LEN)
  }

  /** After `k` codes of the present length, in a stream that has not been cleared since. */
  ghost predicate Steady(t: Stream, o: Origin, s: State, k: nat) {
    && 9 <= s.bits <= t.maxBits
    && s.base == o.base + InFront(t.block, s.bits)
    && s.mark == o.mark + InFront(t.block, s.bits) + Ahead(t.block, s.bits)
    && s.used == s.bits * k && s.Pos() <= |t.data|
    && s.End() <= Pow2(s.bits) - 1
    && (s.bits < t.maxBits ==> k == s.End() - (Pow2(s.bits - 1) - 1) + Extra(t.block, s.bits))
  }

  lemma FullGroups(bits: nat)
    requires bits >= 4
    ensures bits * Pow2(bits - 1) == 8 * LengthOf(bits)
  {
    assert Pow2(bits - 1) == 2 * Pow2(bits - 2) == 4 * Pow2(bits - 3) == 8 * Pow2(bits - 4);
    Doubling(bits, 4 * Pow2(bits - 4));
    Doubling(bits, 2 * Pow2(bits - 4));
    Doubling(bits, Pow2(bits - 4));
  }

  lemma NothingToSkip(bits: nat, n: nat)
    requires bits > 0
    ensures Skip(bits * n, bits) == 0
  {
    DivisionIs(bits * n, bits, n, 0);
  }

  /** Where the codes of a length end. */
  lemma LastOfLength(block: bool, bits: nat, k: nat)
    requires bits >= 9 && k == Pow2(bits) - Pow2(bits - 1) + Extra(block, bits)
    ensures Skip(Octets(bits * k), bits) == Ahead(block, bits + 1) - Ahead(block, bits)
    ensures Octets(bits * k) == InFront(block, bits + 1) - InFront(block, bits)
  {
    if bits == 9 {
      PowersUpTo9();
      assert Pow2(8) == 256;
    } else {
      hide Skip;
      LastOfMore(block, bits, k);
    }
  }

  lemma LastOfMore(block: bool, bits: nat, k: nat)
    requires bits >= 10 && k == Pow2(bits) - Pow2(bits - 1)
    ensures Skip(Octets(bits * k), bits) == 0
    ensures Octets(bits * k) == InFront(block, bits + 1) - InFront(block, bits)
  {
    hide Skip, InFront;
    assert Pow2(bits) == 2 * Pow2(bits - 1);
    FullGroups(bits);
    NothingToSkip(bits, Pow2(bits - 4));
    assert InFront(block, bits + 1) == InFront(block, bits) + LengthOf(bits) by {
      InFrontStep(block, bits);
    }
  }

  lemma InFrontStep(block: bool, bits: nat)
    requires bits >= 10
    ensures InFront(block, bits + 1) == InFront(block, bits) + LengthOf(bits)
  {
    hide LengthOf;
  }

  /** Where the decoder may stop before the first seven bytes are skipped. */
  const FIRST_SKIP := 293

  lemma SteadyWidth(t: Stream, o: Origin, s: State, k: nat)
    requires Steady(t, o, s, k)
    ensures s.bits >= 9 && s.End() <= Pow2(s.bits) - 1
  {
  }

  /** The next length begins where the codes of this one have been counted. */
  lemma NextLength(t: Stream, o: Origin, s: State, k: nat)
    requires Steady(t, o, s, k) && s.End() == Pow2(s.bits) - 1 && s.bits < t.maxBits
    ensures var skip := Skip(Octets(s.used), s.bits);
            && skip == Ahead(t.block, s.bits + 1) - Ahead(t.block, s.bits)
            && (skip != 0 ==> !t.block && s.bits == 9 && s.Pos() == o.base + 290 && s.Nxt() == o.mark + 290)
            && Steady(t, o, s.(base := s.Pos(), mark := s.Nxt() + skip, used := 0, bits := s.bits + 1), 0)
            && s.End() < Pow2(s.bits + 1) - 1
  {
    hide Skip, InFront;
    LastOfLength(t.block, s.bits, k);
    assert Pow2(s.bits + 1) == 2 * Pow2(s.bits);
    InFrontOfTen(t.block);
  }

  lemma WidenSteady(t: Stream, o: Origin, s: State, k: nat)
    requires Steady(t, o, s, k)
    ensures match Widen(t, s)
            case None => !t.block && s.bits == 9 && s.Pos() == o.base + 290 && t.maxLen <= o.mark + 290 + 7
            case Some(w) =>
              && Steady(t, o, w, if w == s then k else 0)
              && (w.bits < t.maxBits ==> w.End() < Pow2(w.bits) - 1)
  {
    hide Skip, InFront, Pow2, Octets, Steady;
    SteadyWidth(t, o, s, k);
    if s.End() >= Pow2(s.bits) - 1 && s.bits < t.maxBits {
      NextLength(t, o, s, k);
    }
  }

  lemma InFrontOfTen(block: bool)
    ensures InFront(block, 9) == 0 && InFront(false, 10) == 290
  {
  }

  lemma CodeSteady(t: Stream, o: Origin, w: State, k: nat)
    requires Steady(t, o, w, k) && (w.bits < t.maxBits ==> w.End() < Pow2(w.bits) - 1) && ReadCode(t, w).Some?
    ensures var code, r := ReadCode(t, w).value, w.(used := w.used + w.bits);
            && (Uncleared(t, o.base) && code == CLEAR ==> !t.block)
            && !Extend(r, code).Stop?
            && (Extend(r, code).More? ==> Steady(t, o, Extend(r, code).state, k + 1))
  {
    hide InFront, Field, Pow2, Str, First;
    EnoughBytes(w.base, w.used + w.bits, |t.data|);
    CodePlace(t, o, w, k);
    OneMore(w.bits, k);
  }

  /** A code that is read is not the clear code. */
  lemma CodePlace(t: Stream, o: Origin, w: State, k: nat)
    requires Steady(t, o, w, k) && (w.bits < t.maxBits ==> w.End() < Pow2(w.bits) - 1)
    requires 8 * w.base + w.used + w.bits <= 8 * |t.data|
    ensures Uncleared(t, o.base) && Field(t.data, w.base, w.used, w.bits) == CLEAR ==> !t.block
  {
    hide InFront, Field;
    assert Pow2(w.bits) == 2 * Pow2(w.bits - 1);
    if t.block && NoClearCode(t.data, t.maxBits, o.base) {
      assert !ClearAt(t.data, t.maxBits, o.base, w.bits, k);
    }
  }

  lemma StepSteady(t: Stream, o: Origin, s: State, k: nat) returns (next: nat)
    requires Steady(t, o, s, k) && Uncleared(t, o.base)
    ensures match Step(t, s)
            case Bad => true
            case Stop(end) => end == s && Widen(t, s).None?
            case More(state) => Steady(t, o, state, next)
  {
    hide Widen, ReadCode, Extend, Clear, Pow2, Steady, Uncleared;
    WidenSteady(t, o, s, k);
    SteadyWidth(t, o, s, k);
    next := 0;
    if Widen(t, s).Some? {
      var w := Widen(t, s).value;
      next := if w == s then k else 0;
      if ReadCode(t, w).Some? {
        CodeSteady(t, o, w, next);
        next := next + 1;
      }
    }
  }

  lemma OneMore(bits: nat, k: nat)
    ensures bits * k + bits == bits * (k + 1)
  {
  }

  /** The end of a run without clear codes: seven bytes have been skipped, or none. */
  ghost predicate SteadyEnd(t: Stream, start: nat, end: State) {
    && 9 <= end.bits && end.Pos() <= |t.data| && start + end.Nxt() - end.Pos() == Ahead(t.block, end.bits)
    && (end.bits >= 10 ==> end.Pos() >= start + InFront(t.block, 10) + HEADER_LEN)
    && (end.bits == 9 ==> end.Pos() <= start + FIRST_SKIP)
    && (|| end.Nxt() >= t.maxLen
        || (!t.block && end.bits == 9 && end.Pos() == start + FIRST_SKIP && t.maxLen <= FIRST_SKIP + 7))
  }

  lemma {:induction false} InFrontGrows(block: bool, bits: nat)
    requires bits >= 10
    ensures InFront(block, bits) >= InFront(block, 10)
  {
    if bits > 10 {
      hide LengthOf;
      InFrontGrows(block, bits - 1);
    }
  }

  lemma SteadyEnds(t: Stream, start: nat, s: State, k: nat)
    requires Steady(t, FirstOrigin(start), s, k) && t.maxBits >= 10 && (s.Nxt() >= t.maxLen || Widen(t, s).None?)
    ensures SteadyEnd(t, start, s)
  {
    hide InFront, Widen;
    WidenSteady(t, FirstOrigin(start), s, k);
    InFrontOfTen(t.block);
    if s.bits >= 10 {
      InFrontGrows(t.block, s.bits);
    } else {
      PowersUpTo9();
      assert Pow2(8) == 256;
    }
  }

  lemma {:induction false} RunSteady(t: Stream, start: nat, s: State, k: nat)
    requires Steady(t, FirstOrigin(start), s, k) && Uncleared(t, start + HEADER_LEN) && t.maxBits >= 10
    ensures Run(t, s).Some? ==> SteadyEnd(t, start, Run(t, s).value)
    decreases t.maxLen - s.Nxt()
  {
    hide Step, Steady, SteadyEnd, Uncleared, Widen, Octets;
    SteadyWidth(t, FirstOrigin(start), s, k);
    if s.Nxt() >= t.maxLen {
      SteadyEnds(t, start, s, k);
    } else {
      StepAdvances(t, s);
      var next := StepSteady(t, FirstOrigin(start), s, k);
      if Step(t, s).More? {
        RunSteady(t, start, Step(t, s).state, next);
      } else if Step(t, s).Stop? {
        SteadyEnds(t, start, s, k);
      }
    }
  }

  lemma ClearMoves(prefix: seq<byte>, data: seq<byte>, maxBits: nat)
    requires NoClearCode(data, maxBits, HEADER_LEN)
    ensures NoClearCode(prefix + data, maxBits, |prefix| + HEADER_LEN)
  {
    hide Field, Pow2, InFront;
    var file, base := prefix + data, |prefix| + HEADER_LEN;
    forall bits: nat, k: nat | 9 <= bits <= maxBits
      ensures !ClearAt(file, maxBits, base, bits, k)
    {
      var at := HEADER_LEN + InFront(true, bits);
      assert !ClearAt(data, maxBits, HEADER_LEN, bits, k);
      if 8 * at + bits * k + bits <= 8 * |data| {
        FieldMoves(prefix, data, at, bits * k, bits);
      }
    }
  }

  /** The flags ask for clear codes. */
  predicate HasClearCodes(data: seq<byte>) {
    |data| >= HEADER_LEN && data[2] / 0x80 == 1
  }

  ghost predicate NeverCleared(data: seq<byte>) {
    |data| >= HEADER_LEN && StreamOf(data, data[2], 0).Some? ==> Uncleared(StreamOf(data, data[2], 0).value, HEADER_LEN)
  }

  lemma FirstSteady(t: Stream, start: nat, prev: nat)
    requires 10 <= t.maxBits && start + HEADER_LEN + 2 <= |t.data|
    ensures Steady(t, FirstOrigin(start), FirstState(start, t.block, prev), 1)
  {
    PowersUpTo9();
    assert Pow2(8) == 256;
  }

  lemma UnclearedEnds(data: seq<byte>, start: nat, maxLen: int)
    requires FinalState(data, start, maxLen).Ok?
    requires Uncleared(StreamOf(data, data[start + 2], maxLen).value, start + HEADER_LEN)
    ensures SteadyEnd(StreamOf(data, data[start + 2], maxLen).value, start, FinalState(data, start, maxLen).value)
  {
    hide Run, Steady, SteadyEnd, Uncleared, Field;
    var t := StreamOf(data, data[start + 2], maxLen).value;
    var s := Initial(t, start).value;
    FirstSteady(t, start, s.prev);
    RunSteady(t, start, s, 1);
  }

  /** Behind other bytes the counter has to be ahead of them at the end. */
  lemma BehindOthers(prefix: seq<byte>, data: seq<byte>)
    requires prefix != [] && NeverCleared(data) && FinalState(prefix + data, |prefix|, |prefix + data|).Ok?
    ensures !HasClearCodes(data) && |prefix| <= 7 && |data| >= FIRST_SKIP
  {
    hide FinalState, NoClearCode;
    var file, start := prefix + data, |prefix|;
    TooShort(file, start, |file|);
    assert file[start + 2] == data[2];
    var t := StreamOf(file, data[2], |file|);
    if t.value.block {
      ClearMoves(prefix, data, t.value.maxBits);
    }
    UnclearedEnds(file, start, |file|);
    InFrontOfTen(t.value.block);
  }

  lemma ErrorIs(data: seq<byte>, start: nat)
    requires start + HEADER_LEN <= |data| && CalculateChunk(data, start).Err?
    ensures CalculateChunk(data, start) == Err(InvalidInputFormat)
  {
    hide Run, Field;
  }

  lemma TooShort(data: seq<byte>, start: nat, maxLen: int)
    requires FinalState(data, start, maxLen).Ok?
    ensures start + HEADER_LEN + 2 <= |data| && StreamOf(data, data[start + 2], maxLen).Some?
  {
    hide Run;
  }

  /** With fewer bytes behind the stream the decoder is done before it gets there. */
  lemma DoneInside(data: seq<byte>, suffix: seq<byte>)
    requires !HasClearCodes(data) && |suffix| <= 7 && |data| >= FIRST_SKIP
    requires FinalState(data + suffix, 0, |data + suffix|).Ok?
    ensures FinalState(data + suffix, 0, |data + suffix|).value.Pos() <= |data|
  {
    hide FinalState, NoClearCode;
    var file := data + suffix;
    TooShort(file, 0, |file|);
    FinalStateIs(file, 0, |file|);
    assert file[2] == data[2];
    assert !StreamOf(file, file[2], |file|).value.block;
    UnclearedEnds(file, 0, |file|);
  }

  /**
   A stream that is not cleared is found at the start of a file, and behind other bytes only when it has no
   clear codes, is long enough for seven bytes to be skipped in it, and no more than these seven come before.
   */
  lemma AcceptedIff(prefix: seq<byte>, data: seq<byte>, suffix: seq<byte>)
    requires NeverCleared(data) && |prefix| == |suffix|
    ensures CalculateChunk(prefix + data, |prefix|).Ok? <==>
            && (prefix == [] || (!HasClearCodes(data) && |prefix| <= 7 && |data| >= FIRST_SKIP))
            && CalculateChunk(data + suffix, 0).Ok?
  {
    hide FinalState, NeverCleared;
    FoundIffDoneInside(prefix, data, suffix);
    if FinalState(prefix + data, |prefix|, |prefix + data|).Ok? && prefix != [] {
      BehindOthers(prefix, data);
    }
    if FinalState(data + suffix, 0, |data + suffix|).Ok? {
      if prefix == [] {
        TooShort(data + suffix, 0, |data + suffix|);
        FinalStateIs(data + suffix, 0, |data + suffix|);
      } else if !HasClearCodes(data) && |prefix| <= 7 && |data| >= FIRST_SKIP {
        DoneInside(data, suffix);
      }
    }
  }

  /** So wherever clear codes are on and none occurs, nothing may come before the stream. */
  lemma AcceptedOnlyAtTheStart(prefix: seq<byte>, data: seq<byte>)
    requires NeverCleared(data) && (HasClearCodes(data) || |prefix| > 7 || |data| < FIRST_SKIP)
    ensures CalculateChunk(prefix + data, |prefix|).Ok? <==> prefix == [] && CalculateChunk(data, 0).Ok?
    ensures prefix != [] && |data| >= HEADER_LEN ==> CalculateChunk(prefix + data, |prefix|) == Err(InvalidInputFormat)
  {
    hide CalculateChunk, NeverCleared;
    AcceptedIff(prefix, data, prefix);
    if prefix != [] && |data| >= HEADER_LEN {
      ErrorIs(prefix + data, |prefix|);
    }
    if prefix == [] {
      ConcatAssociates(data, [], []);
    }
  }

  // ---- a stream that is accepted at the start of a file only ----

  /** Two literals in nine bits each follow the first one. */
  const SHORT_STREAM: seq<byte> := [0x1F, 0x9D, 0x90, 0, 0, 0, 0]

  ghost predicate ZerosFrom(data: seq<byte>, base: nat) {
    forall k :: base <= k < |data| ==> data[k] == 0
  }

  lemma {:induction false} FieldOfZeros(data: seq<byte>, base: nat, i: nat, n: nat)
    requires ZerosFrom(data, base) && 8 * base + i + n <= 8 * |data|
    ensures Field(data, base, i, n) == 0
    decreases n
  {
    if n > 0 {
      FieldOfZeros(data, base, i + 1, n - 1);
      ZeroOver(Pow2(i % 8));
    }
  }

  lemma ZeroOver(d: nat)
    requires d > 0
    ensures 0 / d == 0
  {
    DivisionIs(0, d, 0, 0);
  }

  /** A zero code is the literal zero. */
  lemma ZeroStep(t: Stream, s: State)
    requires ZerosFrom(t.data, s.base) && s.bits == 9 && s.End() < 511
    requires s.base + Octets(s.used + 9) <= |t.data| && s.mark + Octets(s.used + 9) <= t.maxLen
    ensures var next := Step(t, s);
            && next.More? && next.state.base == s.base && next.state.mark == s.mark && next.state.used == s.used + 9
            && next.state.bits == 9 && next.state.End() == s.End() + 1 && next.state.last == 0
  {
    hide Field, Octets;
    PowersUpTo9();
    EnoughBytes(s.base, s.used + 9, |t.data|);
    FieldOfZeros(t.data, s.base, s.used, 9);
  }

  lemma ZerosNeverClear(data: seq<byte>, maxBits: nat, base: nat)
    requires ZerosFrom(data, base)
    ensures NoClearCode(data, maxBits, base)
  {
    hide InFront, Pow2;
    forall bits: nat, k: nat | 9 <= bits <= maxBits
      ensures !ClearAt(data, maxBits, base, bits, k)
    {
      var at := base + InFront(true, bits);
      if 8 * at + bits * k + bits <= 8 * |data| {
        FieldOfZeros(data, at, bits * k, bits);
      }
    }
  }

  /** The run of the short stream by itself. */
  lemma ShortRun(t: Stream)
    requires ZerosFrom(t.data, HEADER_LEN) && |t.data| == 7 && t.maxLen == 7
    ensures var r := Run(t, FirstState(0, true, 0));
            r.Some? && r.value.last == 0 && r.value.Pos() == 7 && r.value.Nxt() == 7
  {
    hide Step;
    var s := FirstState(0, true, 0);
    PowersUpTo9();
    ZeroStep(t, s);
    StepAdvances(t, s);
    var s1 := Step(t, s).state;
    ZeroStep(t, s1);
    StepAdvances(t, s1);
    assert Run(t, s) == Run(t, s1) == Run(t, Step(t, s1).state);
  }

  lemma ShortAlone(data: seq<byte>)
    requires data == SHORT_STREAM
    ensures CalculateChunk(data, 0) == Ok((0, 6))
  {
    hide Run, Field;
    var t := Stream(data, true, 16, 7);
    FieldOfZeros(data, HEADER_LEN, 0, 9);
    ShortRun(t);
    assert StreamOf(data, data[2], 7) == Some(t);
    assert Initial(t, 0) == Ok(FirstState(0, true, 0));
  }

  /** An instance: the same bytes are a chunk at the start of a file, and none behind any other byte. */
  lemma OnlyAtTheStart(prefix: seq<byte>)
    ensures CalculateChunk(prefix + SHORT_STREAM, |prefix|) ==
            if prefix == [] then Ok((0, 6)) else Err(InvalidInputFormat)
  {
    hide CalculateChunk, NoClearCode;
    ZerosNeverClear(SHORT_STREAM, 16, HEADER_LEN);
    AcceptedOnlyAtTheStart(prefix, SHORT_STREAM);
    if prefix == [] {
      ConcatAssociates(SHORT_STREAM, [], []);
      ShortAlone(SHORT_STREAM);
    }
  }

  // ---- a stream that is accepted behind a few bytes ----

  /** Literals in nine bits each, up to where the codes would become longer. */
  const LONG_STREAM: seq<byte> := [0x1F, 0x9D, 0x10] + Zeros(290)

  lemma {:induction false} ZeroRun(t: Stream, s: State)
    requires ZerosFrom(t.data, HEADER_LEN) && FIRST_SKIP < t.maxLen <= FIRST_SKIP + 7 && t.maxLen == |t.data|
    requires t.maxBits > 9
    requires s.base == HEADER_LEN == s.mark && s.bits == 9 && s.End() <= 511 && s.used == 9 * (s.End() - 254)
    ensures Run(t, s).Some? && Run(t, s).value.Pos() == FIRST_SKIP
    decreases 511 - s.End()
  {
    PowersUpTo9();
    if s.End() == 511 {
      assert Widen(t, s) == None;
      assert Step(t, s) == Stop(s);
    } else {
      hide Step;
      ZeroStep(t, s);
      StepAdvances(t, s);
      ZeroRun(t, Step(t, s).state);
    }
  }

  /** Seven bytes are to be skipped at the end of it, so it is found behind up to seven bytes. */
  lemma FoundBehindSeven(prefix: seq<byte>)
    requires 1 <= |prefix| <= 7
    ensures CalculateChunk(prefix + LONG_STREAM, |prefix|).Ok?
  {
    hide Run, Field, Uncleared;
    var file := LONG_STREAM + Zeros(|prefix|);
    var t := Stream(file, false, 16, |file|);
    FieldOfZeros(file, HEADER_LEN, 0, 9);
    ZeroRun(t, FirstState(0, false, 0));
    assert file[2] == 0x10 == LONG_STREAM[2];
    assert StreamOf(file, file[2], |file|) == Some(t);
    assert Initial(t, 0) == Ok(FirstState(0, false, 0));
    NoClearCodes(LONG_STREAM);
    AcceptedIff(prefix, LONG_STREAM, Zeros(|prefix|));
  }

  lemma NoClearCodes(data: seq<byte>)
    requires |data| >= HEADER_LEN && !HasClearCodes(data)
    ensures NeverCleared(data)
  {
    hide NoClearCode;
  }
}
