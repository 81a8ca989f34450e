/** The decompressor as the two objects of the program: a bit reader and a decoder with its output. */
module UclDecompressor {
  import opened Bytes
  import U = Ucl

  class BitReader {
    const data: seq<byte>
    var index: nat
    var bb: nat
    var bc: nat

    ghost predicate Valid()
      reads this
    {
      index <= |data|
    }

    ghost function State(): U.Reader
      reads this
      requires Valid()
    {
      U.ReaderState(data, index, bb, bc)
    }

    constructor (data: seq<byte>)
      ensures Valid() && State() == U.ReaderState(data, 0, 0, 0)
    {
      this.data := data;
      index, bb, bc := 0, 0, 0;
    }

    /** Not `ok` when the data ends before the bit. */
    method GetBit() returns (ok: bool, bit: nat)
      requires Valid()
      modifies this
      ensures Valid() && ok == U.GetBit(old(State())).Some?
      ensures if ok then U.GetBit(old(State())) == Some((State(), bit)) else State() == old(State())
    {
      if bc == 0 {
        if index >= |data| {
          return false, 0;
        }
        bb := data[index];
        index := index + 1;
        bc := 8;
      }
      bc := bc - 1;
      return true, bb / Pow2(bc) % 2;
    }

    method ReadByte() returns (ok: bool, b: byte)
      requires Valid()
      modifies this
      ensures Valid() && ok == U.ReadByte(old(State())).Some?
      ensures if ok then U.ReadByte(old(State())) == Some((State(), b)) else State() == old(State())
    {
      if index >= |data| {
        return false, 0;
      }
      b := data[index];
      index := index + 1;
      ok := true;
    }
  }

  class UCLDecompressor {
    var reader: BitReader
    var output: seq<byte>
    var lastMatchOffset: int
    var matchOffset: int
    var matchLength: int

    constructor ()
      ensures fresh(reader) && reader.Valid()
    {
      reader := new BitReader([]);
      output := [];
      lastMatchOffset, matchOffset, matchLength := -1, -1, -1;
    }

    /** Literals are copied to the output up to the next zero bit. */
    method ProcessLiteralRun() returns (ok: bool)
      requires reader.Valid() && lastMatchOffset >= 1
      modifies reader, this`output
      ensures reader.Valid()
      ensures var was := U.Decode(old(reader.State()), old(output), lastMatchOffset);
              if ok then was == AfterMatch() else was == None
      ensures U.Remaining(reader.State()) <= U.Remaining(old(reader.State()))
    {
      hide U.StepMatch, Pow2;
      ghost var start := U.Decode(reader.State(), output, lastMatchOffset);
      var bit;
      ok, bit := reader.GetBit();
      while ok && bit == 1
        invariant reader.Valid()
        invariant ok && bit == 1 ==> start == AfterLiteralFlag()
        invariant ok && bit != 1 ==> start == AfterMatch()
        invariant !ok ==> start == None
        invariant U.Remaining(reader.State()) <= U.Remaining(old(reader.State()))
        decreases U.Remaining(reader.State()), ok
      {
        var b;
        ok, b := reader.ReadByte();
        if ok {
          output := output + [b];
          assert start == U.Decode(reader.State(), output, lastMatchOffset);
          ok, bit := reader.GetBit();
        }
      }
    }

    ghost function AfterLiteralFlag(): Option<seq<byte>>
      reads this, reader
      requires reader.Valid() && lastMatchOffset >= 1
    {
      var (r, b) :- U.ReadByte(reader.State());
      U.Decode(r, output + [b], lastMatchOffset)
    }

    ghost function AfterMatch(): Option<seq<byte>>
      reads this, reader
      requires reader.Valid() && lastMatchOffset >= 1
    {
      Continue(U.StepMatch(reader.State(), output, lastMatchOffset))
    }

    static ghost function Continue(p: Option<U.Progress>): Option<seq<byte>> {
      match p
      case None => None
      case Some(Done(res)) => Some(res)
      case Some(More(r, out, last)) => U.Decode(r, out, last)
    }

    method DecodeGamma(start: nat) returns (ok: bool, value: nat)
      requires reader.Valid()
      modifies reader
      ensures reader.Valid() && ok == U.Gamma(old(reader.State()), start).Some?
      ensures ok ==> U.Gamma(old(reader.State()), start) == Some((reader.State(), value))
    {
      hide Pow2, U.GetBit;
      value := start;
      while true
        invariant reader.Valid() && U.Gamma(old(reader.State()), start) == U.Gamma(reader.State(), value)
        decreases U.Remaining(reader.State())
      {
        var bit, last;
        ok, bit := reader.GetBit();
        if !ok {
          return;
        }
        ok, last := reader.GetBit();
        if !ok {
          return;
        }
        value := 2 * value + bit;
        if last == 1 {
          break;
        }
      }
    }

    method DecodeMatchLength() returns (ok: bool)
      requires reader.Valid() && matchOffset >= 1
      modifies reader, this`matchLength
      ensures reader.Valid() && ok == U.MatchLength(old(reader.State()), matchOffset).Some?
      ensures ok ==>
                && matchLength >= 0
                && U.MatchLength(old(reader.State()), matchOffset) == Some((reader.State(), matchLength))
    {
      var high, low;
      ok, high := reader.GetBit();
      if !ok {
        return;
      }
      ok, low := reader.GetBit();
      if !ok {
        return;
      }
      var length: nat := 2 * high + low;
      if length == 0 {
        ok, length := DecodeGamma(1);
        if !ok {
          return;
        }
        length := length + 2;
      }
      if matchOffset > 0xD00 {
        length := length + 1;
      }
      matchLength := length;
    }

    /** One byte unconditionally, then as many as the match length says; the regions may overlap. */
    method CopyMatchData() returns (ok: bool)
      requires matchOffset >= 1 && matchLength >= 0
      modifies this`output
      ensures ok == (matchOffset <= |old(output)|)
      ensures ok ==> output == U.CopyMatch(old(output), matchOffset, matchLength + 1)
    {
      var matchIndex := |output| - matchOffset;
      if matchIndex < 0 {
        return false;
      }
      output := output + [output[matchIndex]];
      matchIndex := matchIndex + 1;
      for k := 0 to matchLength
        invariant matchIndex == |output| - matchOffset >= 0
        invariant U.CopyMatch(old(output), matchOffset, matchLength + 1) ==
                  U.CopyMatch(output, matchOffset, matchLength - k)
      {
        output := output + [output[matchIndex]];
        matchIndex := matchIndex + 1;
      }
      ok := true;
    }

    /** Sets the match offset; `ended` at the end marker. */
    method DecodeMatchOffset() returns (ok: bool, ended: bool)
      requires reader.Valid() && lastMatchOffset >= 1
      modifies reader, this`matchOffset, this`lastMatchOffset
      ensures reader.Valid() && ok == U.MatchOffset(old(reader.State()), old(lastMatchOffset)).Some?
      ensures ok && ended ==> U.MatchOffset(old(reader.State()), old(lastMatchOffset)) == Some((reader.State(), None))
      ensures ok && !ended ==> matchOffset == lastMatchOffset >= 1
      ensures ok && !ended ==>
                U.MatchOffset(old(reader.State()), old(lastMatchOffset)) == Some((reader.State(), Some(matchOffset)))
    {
      ended := false;
      var code, b;
      ok, code := DecodeGamma(1);
      if !ok {
        return;
      }
      matchOffset := code;
      if matchOffset == 2 {
        matchOffset := lastMatchOffset;
      } else {
        ok, b := reader.ReadByte();
        if !ok {
          return;
        }
        matchOffset := (matchOffset - 3) * 256 + b;
        if matchOffset == U.END_OF_STREAM_MARKER {
          ended := true;
          return;
        }
        matchOffset := matchOffset + 1;
        lastMatchOffset := matchOffset;
      }
    }

    /** `None` when the data ends too early or a match reaches before the start of the output. */
    method Decompress(compressed: seq<byte>) returns (result: Option<seq<byte>>)
      modifies this
      ensures result == U.Decompress(compressed)
    {
      hide U.Decode, U.MatchOffset, U.MatchLength, U.CopyMatch;
      reader := new BitReader(compressed);
      output := [];
      lastMatchOffset := 1;
      while true
        invariant fresh(reader) && reader.Valid() && lastMatchOffset >= 1
        invariant U.Decompress(compressed) == U.Decode(reader.State(), output, lastMatchOffset)
        decreases U.Remaining(reader.State())
      {
        ghost var start := reader.State();
        var ok := ProcessLiteralRun();
        if !ok {
          return None;
        }
        assert U.Decompress(compressed) == AfterMatch();
        var ended;
        ok, ended := DecodeMatchOffset();
        if !ok {
          return None;
        }
        if ended {
          break;
        }
        ok := DecodeMatchLength();
        if !ok {
          return None;
        }
        ok := CopyMatchData();
        if !ok {
          return None;
        }
      }
      return Some(output);
    }
  }
}
