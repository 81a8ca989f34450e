/**
 The hex-string compiler: a parsed YARA-like pattern is turned into the text of a regular expression.
 The text is shown to be read as the intended expression, which means what the pattern means.
 */
module HexString {
  import opened Bytes
  import opened Regexes

  // ---- patterns ----

  datatype Item =
    | Literal(high: char, low: char)
    | Wildcard
    | FirstNibble(low: char)
    | SecondNibble(high: char)
    | Jump(length: string)
    | RangeJump(least: string, most: string)
    | Alternative(bodies: Bodies)

  datatype Body = NoItem | Items(first: Item, rest: Body)

  datatype Bodies = LastBody(body: Body) | Bodies(body: Body, others: Bodies)

  datatype Pattern = Pattern(startAnchor: bool, body: Body, endAnchor: bool)

  predicate IsHexDigit(c: char) {
    '0' <= c <= '9' || 'A' <= c <= 'F' || 'a' <= c <= 'f'
  }

  predicate IsNumber(s: string) {
    s != [] && AllDigits(s)
  }

  /** The value of a decimal number. */
  function Decimal(s: string): nat
    requires AllDigits(s)
  {
    if s == [] then 0
    else
      FrontIsDigits(s);
      10 * Decimal(s[..|s| - 1]) + (s[|s| - 1] as int - '0' as int)
  }

  lemma {:induction false} FrontIsDigits(s: string)
    requires s != [] && AllDigits(s)
    ensures AllDigits(s[..|s| - 1]) && IsDigit(s[|s| - 1])
  {
    if |s| > 1 {
      FrontIsDigits(s[1..]);
      assert s[..|s| - 1][1..] == s[1..][..|s| - 2];
    }
  }

  /** What the grammar lets through; a range has its bounds in order, and an alternative two bodies at least. */
  predicate ItemOk(it: Item) {
    match it
    case Literal(h, l) => IsHexDigit(h) && IsHexDigit(l)
    case Wildcard => true
    case FirstNibble(l) => IsHexDigit(l)
    case SecondNibble(h) => IsHexDigit(h)
    case Jump(n) => IsNumber(n)
    case RangeJump(a, b) => IsNumber(a) && IsNumber(b) && Decimal(a) <= Decimal(b)
    case Alternative(bodies) => bodies.Bodies? && BodiesOk(bodies)
  }

  predicate BodyOk(b: Body) {
    b.Items? ==> ItemOk(b.first) && BodyOk(b.rest)
  }

  predicate BodiesOk(bs: Bodies) {
    bs.body.Items? && BodyOk(bs.body) && (bs.Bodies? ==> BodiesOk(bs.others))
  }

  predicate PatternOk(p: Pattern) {
    p.body.Items? && BodyOk(p.body)
  }

  /** What the digit means: the decimal ones begin at 48, and letters count from ten in either case. */
  function Nibble(c: char): (n: nat)
    requires IsHexDigit(c)
    ensures HexValue(c) == Some(n) && n < 16
  {
    if c as int < 58 then c as int - 48 else c as int % 32 + 9
  }

  // ---- the compiler ----

  /** The text of a leaf of the tree. */
  function Token(it: Item): string
    requires !it.Alternative?
  {
    match it
    case Literal(h, l) => [h, l]
    case Wildcard => "??"
    case FirstNibble(l) => ['?', l]
    case SecondNibble(h) => [h, '?']
    case Jump(n) => "[" + n + "]"
    case RangeJump(a, b) => "[" + a + "-" + b + "]"
  }

  function Join(separator: string, parts: seq<string>): string {
    if parts == [] then ""
    else if |parts| == 1 then parts[0]
    else parts[0] + separator + Join(separator, parts[1..])
  }

  function Concat(parts: seq<string>): string {
    if parts == [] then "" else parts[0] + Concat(parts[1..])
  }

  function HexDigit(n: nat): char
    requires n < 16
  {
    if n < 10 then ('0' as int + n) as char else ('a' as int + n - 10) as char
  }

  function HexByte(h: char, l: char): string {
    ['\\', 'x', h, l]
  }

  /** All bytes with a given second digit, from the first digit `n` on. */
  function ByteList(l: char, n: nat): seq<string>
    requires n <= 16
    decreases 16 - n
  {
    if n == 16 then [] else [HexByte(HexDigit(n), l)] + ByteList(l, n + 1)
  }

  /** The two sides of the first occurrence of a character. */
  function SplitOnce(s: string, c: char): (string, string) {
    if s == [] then ("", "")
    else if s[0] == c then ("", s[1..])
    else var (a, b) := SplitOnce(s[1..], c); ([s[0]] + a, b)
  }

  function Inside(token: string): string
    requires |token| >= 2
  {
    token[1..|token| - 1]
  }

  /** The number of parts before the first separator. */
  function RunLength(parts: seq<string>): (n: nat)
    ensures n <= |parts|
  {
    if parts == [] || parts[0] == "|" then 0 else 1 + RunLength(parts[1..])
  }

  /** The runs of parts between separators, each joined into one text. */
  function Groups(parts: seq<string>): seq<string>
    decreases |parts|
  {
    if parts == [] then []
    else if parts[0] == "|" then Groups(parts[1..])
    else [Concat(parts[..RunLength(parts)])] + Groups(parts[RunLength(parts)..])
  }

  function Emit(it: Item): string {
    match it
    case Literal(_, _) => "\\x" + Token(it)
    case Wildcard => "."
    case FirstNibble(_) => "[" + Join(",", ByteList(Token(it)[1], 0)) + "]"
    case SecondNibble(_) => "[\\x" + [Token(it)[0]] + "0-\\x" + [Token(it)[0]] + "f]"
    case Jump(_) => ".{" + Inside(Token(it)) + "}"
    case RangeJump(_, _) =>
      var (a, b) := SplitOnce(Inside(Token(it)), '-');
      ".{" + a + "," + b + "}"
    case Alternative(bodies) => "(" + Join("|", Groups(Children(bodies))) + ")"
  }

  /** The transformed children of a body. */
  function EmitEach(b: Body): seq<string> {
    match b
    case NoItem => []
    case Items(first, rest) => [Emit(first)] + EmitEach(rest)
  }

  /** The children of an alternative, separators included. */
  function Children(bs: Bodies): seq<string> {
    match bs
    case LastBody(b) => EmitEach(b)
    case Bodies(b, others) => EmitEach(b) + (["|"] + Children(others))
  }

  function ToRegex(p: Pattern): string {
    Concat((if p.startAnchor then ["^"] else []) + EmitEach(p.body) + (if p.endAnchor then ["$"] else []))
  }

  // ---- what a pattern matches ----

  /**
   The item matches the data from `i` to `j`.  When `comma` is set, a comma is let through wherever the
   first digit of a byte is left open.
   */
  predicate ItemMatches(it: Item, comma: bool, data: seq<byte>, i: nat, j: nat)
    requires ItemOk(it) && i <= j <= |data|
    decreases it, 0
  {
    match it
    case Literal(h, l) => j == i + 1 && data[i] / 16 == Nibble(h) && data[i] % 16 == Nibble(l)
    case Wildcard => j == i + 1
    case FirstNibble(l) => j == i + 1 && (data[i] % 16 == Nibble(l) || (comma && data[i] == ',' as int))
    case SecondNibble(h) => j == i + 1 && data[i] / 16 == Nibble(h)
    case Jump(n) => j - i == Decimal(n)
    case RangeJump(a, b) => Decimal(a) <= j - i <= Decimal(b)
    case Alternative(bodies) => BodiesMatch(bodies, comma, data, i, j)
  }

  predicate BodyMatches(b: Body, comma: bool, data: seq<byte>, i: nat, j: nat)
    requires BodyOk(b) && i <= j <= |data|
    decreases b, 0
  {
    match b
    case NoItem => i == j
    case Items(first, rest) =>
      exists m :: i <= m <= j && ItemMatches(first, comma, data, i, m) && BodyMatches(rest, comma, data, m, j)
  }

  predicate BodiesMatch(bs: Bodies, comma: bool, data: seq<byte>, i: nat, j: nat)
    requires BodiesOk(bs) && i <= j <= |data|
    decreases bs, 0
  {
    BodyMatches(bs.body, comma, data, i, j) || (bs.Bodies? && BodiesMatch(bs.others, comma, data, i, j))
  }

  /** An anchored side of the match lies at the end of the data. */
  predicate PatternMatches(p: Pattern, comma: bool, data: seq<byte>, i: nat, j: nat)
    requires PatternOk(p) && i <= j <= |data|
  {
    (p.startAnchor ==> i == 0) && BodyMatches(p.body, comma, data, i, j) && (p.endAnchor ==> j == |data|)
  }

  // ---- the expression a pattern stands for ----

  function CommaMembers(l: char, n: nat): Members
    requires IsHexDigit(l) && n < 16
    decreases 16 - n
  {
    Member(Single(16 * n + Nibble(l)), if n == 15 then NoMember else Member(Single(',' as int), CommaMembers(l, n + 1)))
  }

  function Compile(it: Item): Atom
    requires ItemOk(it)
  {
    match it
    case Literal(h, l) => Byte(16 * Nibble(h) + Nibble(l))
    case Wildcard => Any
    case FirstNibble(l) => Class(CommaMembers(l, 0))
    case SecondNibble(h) => Class(Member(Range(16 * Nibble(h), 16 * Nibble(h) + 15), NoMember))
    case Jump(n) => Repeat(Any, Decimal(n), Decimal(n))
    case RangeJump(a, b) => Repeat(Any, Decimal(a), Decimal(b))
    case Alternative(bodies) => Group(CompileBodies(bodies))
  }

  /** The items of the body, and the end of the data when it is anchored there. */
  function CompileBody(b: Body, anchored: bool): Branch
    requires BodyOk(b)
  {
    match b
    case NoItem => if anchored then Then(End, Empty) else Empty
    case Items(first, rest) => Then(Compile(first), CompileBody(rest, anchored))
  }

  function CompileBodies(bs: Bodies): Regex
    requires BodiesOk(bs)
  {
    match bs
    case LastBody(b) => Only(CompileBody(b, false))
    case Bodies(b, others) => Either(CompileBody(b, false), CompileBodies(others))
  }

  function CompilePattern(p: Pattern): Branch
    requires PatternOk(p)
  {
    var end := CompileBody(p.body, p.endAnchor);
    if p.startAnchor then Then(Start, end) else end
  }

  // ---- the compiled expression means what the pattern means ----

  lemma {:induction false} ClassOfFirstNibble(l: char, n: nat, b: byte)
    requires IsHexDigit(l) && n < 16
    ensures InClass(CommaMembers(l, n), b) <==>
            (b % 16 == Nibble(l) && b / 16 >= n) || (b == ',' as int && n < 15)
    decreases 16 - n
  {
    if n < 15 {
      ClassOfFirstNibble(l, n + 1, b);
    }
  }

  lemma {:induction false} AnyTimes(n: nat, data: seq<byte>, i: nat, j: nat)
    requires i <= j <= |data|
    ensures TimesMatches(Any, n, data, i, j) <==> j - i == n
    decreases n
  {
    if n > 0 && i < j {
      AnyTimes(n - 1, data, i + 1, j);
      assert AtomMatches(Any, data, i, i + 1);
    }
  }

  lemma RepeatedAny(least: nat, most: nat, data: seq<byte>, i: nat, j: nat)
    requires i <= j <= |data|
    ensures AtomMatches(Repeat(Any, least, most), data, i, j) <==> least <= j - i <= most
  {
    var n: nat := j - i;
    AnyTimes(n, data, i, j);
    forall k: nat | TimesMatches(Any, k, data, i, j)
      ensures k == n
    {
      AnyTimes(k, data, i, j);
    }
  }

  lemma ByteOfNibbles(h: char, l: char, b: byte)
    requires IsHexDigit(h) && IsHexDigit(l)
    ensures b == 16 * Nibble(h) + Nibble(l) <==> b / 16 == Nibble(h) && b % 16 == Nibble(l)
    ensures 16 * Nibble(h) <= b <= 16 * Nibble(h) + 15 <==> b / 16 == Nibble(h)
  {
  }

  lemma {:induction false} ItemMeaning(it: Item, data: seq<byte>, i: nat, j: nat)
    requires ItemOk(it) && i <= j <= |data|
    ensures AtomMatches(Compile(it), data, i, j) <==> ItemMatches(it, true, data, i, j)
    decreases it, 0
  {
    match it
    case Literal(h, l) =>
      if j == i + 1 {
        ByteOfNibbles(h, l, data[i]);
      }
    case Wildcard =>
    case FirstNibble(l) =>
      if j == i + 1 {
        ClassOfFirstNibble(l, 0, data[i]);
      }
    case SecondNibble(h) =>
      if j == i + 1 {
        ByteOfNibbles(h, h, data[i]);
        assert !InClass(NoMember, data[i]);
      }
    case Jump(n) => RepeatedAny(Decimal(n), Decimal(n), data, i, j);
    case RangeJump(a, b) => RepeatedAny(Decimal(a), Decimal(b), data, i, j);
    case Alternative(bodies) => BodiesMeaning(bodies, data, i, j);
  }

  lemma {:induction false} BodiesMeaning(bs: Bodies, data: seq<byte>, i: nat, j: nat)
    requires BodiesOk(bs) && i <= j <= |data|
    ensures RegexMatches(CompileBodies(bs), data, i, j) <==> BodiesMatch(bs, true, data, i, j)
    decreases bs, 0
  {
    BodyMeaning(bs.body, false, data, i, j);
    if bs.Bodies? {
      BodiesMeaning(bs.others, data, i, j);
    }
  }

  lemma {:induction false} BodyMeaning(b: Body, anchored: bool, data: seq<byte>, i: nat, j: nat)
    requires BodyOk(b) && i <= j <= |data|
    ensures BranchMatches(CompileBody(b, anchored), data, i, j) <==>
            BodyMatches(b, true, data, i, j) && (anchored ==> j == |data|)
    decreases b, 0
  {
    if b.Items? {
      forall m: nat | i <= m <= j
        ensures AtomMatches(Compile(b.first), data, i, m) <==> ItemMatches(b.first, true, data, i, m)
        ensures BranchMatches(CompileBody(b.rest, anchored), data, m, j) <==>
                BodyMatches(b.rest, true, data, m, j) && (anchored ==> j == |data|)
      {
        ItemMeaning(b.first, data, i, m);
        BodyMeaning(b.rest, anchored, data, m, j);
      }
    } else if anchored && i == j == |data| {
      assert AtomMatches(End, data, i, i) && BranchMatches(Empty, data, i, j);
    }
  }

  lemma PatternMeaning(p: Pattern, data: seq<byte>, i: nat, j: nat)
    requires PatternOk(p) && i <= j <= |data|
    ensures BranchMatches(CompilePattern(p), data, i, j) <==> PatternMatches(p, true, data, i, j)
  {
    BodyMeaning(p.body, p.endAnchor, data, i, j);
    if p.startAnchor && i == 0 {
      assert AtomMatches(Start, data, i, i);
    }
  }

  // ---- the text is read as the compiled expression ----

  lemma ReadsHexByte(h: char, l: char, rest: string)
    requires IsHexDigit(h) && IsHexDigit(l)
    ensures ReadByte(HexByte(h, l) + rest) == Some((16 * Nibble(h) + Nibble(l), rest))
  {
    assert (HexByte(h, l) + rest)[4..] == rest;
  }

  lemma ReadsSingle(h: char, l: char, rest: string)
    requires IsHexDigit(h) && IsHexDigit(l) && !StartsWith(rest, '-')
    ensures ReadMember(HexByte(h, l) + rest) == Some((Single(16 * Nibble(h) + Nibble(l)), rest))
  {
    ReadsHexByte(h, l, rest);
  }

  lemma ReadsComma(rest: string)
    ensures ReadMember("," + rest) == Some((Single(',' as int), rest))
  {
    assert ("," + rest)[1..] == rest;
  }

  lemma HexDigitOf(n: nat)
    requires n < 16
    ensures IsHexDigit(HexDigit(n)) && Nibble(HexDigit(n)) == n
  {
  }

  /** One more member in front. */
  lemma MemberFirst(s: string, member: Member, rest: string, others: Members, end: string)
    requires s != [] && s[0] != ']' && ReadMember(s) == Some((member, rest)) && ReadMembers(rest) == Some((others, end))
    ensures ReadMembers(s) == Some((Member(member, others), end))
  {
  }

  /** The list of bytes of a first-nibble wildcard: its separators become members of the class. */
  lemma {:induction false} ReadsByteList(l: char, n: nat, rest: string)
    requires IsHexDigit(l) && n < 16
    ensures var text := Join(",", ByteList(l, n)) + "]" + rest;
            !StartsWith(text, '-') && ReadMembers(text) == Some((CommaMembers(l, n), rest))
    decreases 16 - n
  {
    hide HexDigit, HexValue, ReadByte, ReadMember;
    var h := HexDigit(n);
    var text := Join(",", ByteList(l, n)) + "]" + rest;
    HexDigitOf(n);
    if n == 15 {
      assert text == HexByte(h, l) + ("]" + rest);
      ReadsSingle(h, l, "]" + rest);
      assert ReadMembers("]" + rest) == Some((NoMember, ("]" + rest)[1..]));
      MemberFirst(text, Single(16 * n + Nibble(l)), "]" + rest, NoMember, rest);
    } else {
      var more := Join(",", ByteList(l, n + 1)) + "]" + rest;
      assert text == HexByte(h, l) + ("," + more);
      ReadsSingle(h, l, "," + more);
      ReadsComma(more);
      ReadsByteList(l, n + 1, rest);
      MemberFirst("," + more, Single(',' as int), more, CommaMembers(l, n + 1), rest);
      MemberFirst(text, Single(16 * n + Nibble(l)), "," + more,
                  Member(Single(',' as int), CommaMembers(l, n + 1)), rest);
    }
  }

  lemma ReadsSecondNibble(h: char, rest: string)
    requires IsHexDigit(h)
    ensures ReadMembers("\\x" + [h] + "0-\\x" + [h] + "f]" + rest) ==
            Some((Member(Range(16 * Nibble(h), 16 * Nibble(h) + 15), NoMember), rest))
  {
    var end := HexByte(h, 'f') + ("]" + rest);
    var text := "\\x" + [h] + "0-\\x" + [h] + "f]" + rest;
    assert text == HexByte(h, '0') + ("-" + end);
    ReadsHexByte(h, '0', "-" + end);
    assert ("-" + end)[1..] == end;
    ReadsHexByte(h, 'f', "]" + rest);
    assert ReadMembers("]" + rest) == Some((NoMember, ("]" + rest)[1..]));
    MemberFirst(text, Range(16 * Nibble(h), 16 * Nibble(h) + 15), "]" + rest, NoMember, rest);
  }

  /** Reading digits from the left, on top of a value `v`, gives what the definition from the right gives. */
  lemma {:induction false} ReadsDigits(s: string, v: nat, rest: string)
    requires AllDigits(s) && (rest == [] || !IsDigit(rest[0]))
    ensures ReadDigits(s + rest, v) == (Leading(v, s), rest)
    decreases |s|
  {
    if s == [] {
      ConcatAssociates(rest, [], []);
    } else {
      assert (s + rest)[1..] == s[1..] + rest;
      ReadsDigits(s[1..], 10 * v + (s[0] as int - '0' as int), rest);
    }
  }

  function Leading(v: nat, s: string): nat
    requires AllDigits(s)
    decreases |s|
  {
    if s == [] then v else Leading(10 * v + (s[0] as int - '0' as int), s[1..])
  }

  lemma {:induction false} LeadingLast(v: nat, s: string)
    requires s != [] && AllDigits(s) && AllDigits(s[..|s| - 1]) && IsDigit(s[|s| - 1])
    ensures Leading(v, s) == 10 * Leading(v, s[..|s| - 1]) + (s[|s| - 1] as int - '0' as int)
    decreases |s|
  {
    if |s| > 1 {
      FrontIsDigits(s[1..]);
      assert s[..|s| - 1][1..] == s[1..][..|s| - 2];
      LeadingLast(10 * v + (s[0] as int - '0' as int), s[1..]);
    }
  }

  lemma {:induction false} LeadingIsDecimal(s: string)
    requires AllDigits(s)
    ensures Leading(0, s) == Decimal(s)
    decreases |s|
  {
    if s != [] {
      FrontIsDigits(s);
      LeadingIsDecimal(s[..|s| - 1]);
      LeadingLast(0, s);
    }
  }

  lemma ReadsNumber(s: string, rest: string)
    requires IsNumber(s) && (rest == [] || !IsDigit(rest[0]))
    ensures (s + rest)[0] == s[0] && ReadDigits(s + rest, 0) == (Decimal(s), rest)
  {
    ReadsDigits(s, 0, rest);
    LeadingIsDecimal(s);
  }

  lemma ReadsJump(n: string, rest: string)
    requires IsNumber(n)
    ensures ReadBounds(n + "}" + rest) == Some(((Decimal(n), Decimal(n)), rest))
  {
    ConcatAssociates(n, "}", rest);
    ReadsNumber(n, "}" + rest);
    assert ("}" + rest)[1..] == rest;
  }

  lemma ReadsRange(a: string, b: string, rest: string)
    requires IsNumber(a) && IsNumber(b) && Decimal(a) <= Decimal(b)
    ensures ReadBounds(a + "," + b + "}" + rest) == Some(((Decimal(a), Decimal(b)), rest))
  {
    hide Decimal, ReadDigits;
    var end := b + ("}" + rest);
    assert a + "," + b + "}" + rest == a + ("," + end);
    ReadsNumber(a, "," + end);
    assert ("," + end)[1..] == end;
    ReadsNumber(b, "}" + rest);
    assert ("}" + rest)[1..] == rest;
  }

  /** Digits hold no dash, so a range is split between its bounds. */
  lemma {:induction false} RangeIsSplit(a: string, b: string)
    requires AllDigits(a)
    ensures SplitOnce(a + "-" + b, '-') == (a, b)
    decreases |a|
  {
    var s := a + "-" + b;
    if a == [] {
      assert s[1..] == b;
    } else {
      assert s[1..] == a[1..] + "-" + b;
      RangeIsSplit(a[1..], b);
      assert [a[0]] + a[1..] == a;
    }
  }

  // ---- alternatives ----

  /** No emitted item starts like a separator, a closing bracket or a repetition. */
  predicate Opens(s: string) {
    s != [] && s[0] != '|' && s[0] != ')' && s[0] != '{'
  }

  lemma EmitOpens(it: Item)
    ensures Opens(Emit(it)) && Emit(it) != "|"
  {
  }

  function EmitBody(b: Body): string {
    Concat(EmitEach(b))
  }

  /** The bodies with a separator between any two. */
  function EmitBodies(bs: Bodies): string {
    match bs
    case LastBody(b) => EmitBody(b)
    case Bodies(b, others) => EmitBody(b) + "|" + EmitBodies(others)
  }

  lemma {:induction false} RunIsBody(b: Body, rest: seq<string>)
    requires rest == [] || rest[0] == "|"
    ensures RunLength(EmitEach(b) + rest) == |EmitEach(b)|
  {
    if b.Items? {
      hide Emit, RunLength;
      EmitOpens(b.first);
      OnePart(Emit(b.first), EmitEach(b.rest) + rest);
      ConcatAssociates([Emit(b.first)], EmitEach(b.rest), rest);
      RunIsBody(b.rest, rest);
    } else {
      ConcatAssociates(rest, [], []);
    }
  }

  lemma OnePart(part: string, rest: seq<string>)
    requires part != "|"
    ensures RunLength([part] + rest) == 1 + RunLength(rest)
  {
    assert ([part] + rest)[1..] == rest;
  }

  lemma BodyIsGroup(b: Body, rest: seq<string>)
    requires b.Items? && (rest == [] || rest[0] == "|")
    ensures Groups(EmitEach(b) + rest) == [EmitBody(b)] + Groups(rest)
  {
    RunIsBody(b, rest);
    EmitOpens(b.first);
    var parts, n := EmitEach(b) + rest, |EmitEach(b)|;
    assert parts[..n] == EmitEach(b) && parts[n..] == rest;
  }

  /** Grouping the children by the separators finds the bodies again. */
  lemma {:induction false} GroupsAreBodies(bs: Bodies)
    requires BodiesOk(bs)
    ensures Groups(Children(bs)) != [] && Join("|", Groups(Children(bs))) == EmitBodies(bs)
  {
    match bs
    case LastBody(b) =>
      BodyIsGroup(b, []);
      ConcatAssociates(EmitEach(b), [], []);
    case Bodies(b, others) =>
      BodyIsGroup(b, ["|"] + Children(others));
      assert (["|"] + Children(others))[1..] == Children(others);
      GroupsAreBodies(others);
      assert ([EmitBody(b)] + Groups(Children(others)))[1..] == Groups(Children(others));
  }

  // ---- the whole text ----

  lemma ReadsRepetition(digits: string, least: nat, most: nat, rest: string)
    requires ReadBounds(digits + "}" + rest) == Some(((least, most), rest))
    ensures ReadPiece(".{" + digits + "}" + rest) == Some((Repeat(Any, least, most), rest))
  {
    var text, bounds := ".{" + digits + "}" + rest, digits + "}" + rest;
    assert text[1..] == "{" + bounds && text[1..][1..] == bounds;
  }

  lemma ReadsLeaf(it: Item, rest: string)
    requires ItemOk(it) && !StartsWith(rest, '{')
    requires it.Literal? || it.Wildcard? || it.FirstNibble? || it.SecondNibble?
    ensures ReadPiece(Emit(it) + rest) == Some((Compile(it), rest))
  {
    hide ReadMembers, ReadRegex, HexValue, Join, ByteList, CommaMembers, ReadByte;
    var text := Emit(it) + rest;
    match it
    case Literal(h, l) =>
      assert text == HexByte(h, l) + rest;
      ReadsHexByte(h, l, rest);
    case Wildcard =>
      assert text[1..] == rest;
    case FirstNibble(l) =>
      assert text[1..] == Join(",", ByteList(l, 0)) + "]" + rest;
      ReadsByteList(l, 0, rest);
    case SecondNibble(h) =>
      assert text[1..] == "\\x" + [h] + "0-\\x" + [h] + "f]" + rest;
      ReadsSecondNibble(h, rest);
    case _ =>
  }

  lemma JumpIsRead(n: string, rest: string)
    requires IsNumber(n)
    ensures ReadPiece(Emit(Jump(n)) + rest) == Some((Repeat(Any, Decimal(n), Decimal(n)), rest))
  {
    hide ReadPiece, ReadBounds, Decimal, AllDigits;
    assert Inside(Token(Jump(n))) == n;
    ReadsJump(n, rest);
    ReadsRepetition(n, Decimal(n), Decimal(n), rest);
  }

  lemma TextOfRange(a: string, b: string)
    requires IsNumber(a)
    ensures Emit(RangeJump(a, b)) == ".{" + (a + "," + b) + "}"
  {
    RangeIsSplit(a, b);
    assert Inside(Token(RangeJump(a, b))) == a + "-" + b;
  }

  lemma RangeIsRead(a: string, b: string, rest: string)
    requires IsNumber(a) && IsNumber(b) && Decimal(a) <= Decimal(b)
    ensures ReadPiece(Emit(RangeJump(a, b)) + rest) == Some((Repeat(Any, Decimal(a), Decimal(b)), rest))
  {
    hide ReadPiece, ReadBounds, Decimal, AllDigits, Emit;
    TextOfRange(a, b);
    ReadsRange(a, b, rest);
    ReadsRepetition(a + "," + b, Decimal(a), Decimal(b), rest);
  }

  /** A group, when its inside is read as it should be. */
  lemma GroupIsRead(bs: Bodies, rest: string)
    requires BodiesOk(bs) && bs.Bodies? && !StartsWith(rest, '{')
    requires ReadRegex(EmitBodies(bs) + (")" + rest)) == Some((CompileBodies(bs), ")" + rest))
    ensures ReadPiece(Emit(Alternative(bs)) + rest) == Some((Compile(Alternative(bs)), rest))
  {
    hide ReadRegex, CompileBodies, EmitBodies, Join, Groups, Children;
    var text := Emit(Alternative(bs)) + rest;
    GroupsAreBodies(bs);
    assert text[1..] == EmitBodies(bs) + (")" + rest);
    assert (")" + rest)[1..] == rest;
  }

  lemma {:induction false} ReadsItem(it: Item, rest: string)
    requires ItemOk(it) && !StartsWith(rest, '{')
    ensures ReadPiece(Emit(it) + rest) == Some((Compile(it), rest))
    decreases it, 0
  {
    hide ReadAtom, Emit, ReadRegex, Decimal, AllDigits;
    match it
    case Jump(n) => JumpIsRead(n, rest);
    case RangeJump(a, b) => RangeIsRead(a, b, rest);
    case Alternative(bodies) =>
      ReadsBodies(bodies, ")" + rest);
      GroupIsRead(bodies, rest);
    case _ => ReadsLeaf(it, rest);
  }

  lemma {:induction false} ReadsBodies(bs: Bodies, rest: string)
    requires BodiesOk(bs) && StartsWith(rest, ')')
    ensures ReadRegex(EmitBodies(bs) + rest) == Some((CompileBodies(bs), rest))
    decreases bs, 0
  {
    match bs
    case LastBody(b) =>
      ReadsBody(b, false, rest);
      ConcatAssociates(EmitBody(b), "", rest);
    case Bodies(b, others) =>
      var more := EmitBodies(others) + rest;
      assert EmitBodies(bs) + rest == EmitBody(b) + "" + ("|" + more);
      ReadsBody(b, false, "|" + more);
      assert ("|" + more)[1..] == more;
      ReadsBodies(others, rest);
  }

  function Closing(anchored: bool): string {
    if anchored then "$" else ""
  }

  /** One more piece in front. */
  lemma PieceFirst(text: string, piece: Atom, rest: string, others: Branch, end: string)
    requires !EndsBranch(text) && ReadPiece(text) == Some((piece, rest)) && ReadBranch(rest) == Some((others, end))
    ensures ReadBranch(text) == Some((Then(piece, others), end))
  {
  }

  lemma ReadsClosing(anchored: bool, rest: string)
    requires EndsBranch(rest)
    ensures ReadBranch(Closing(anchored) + rest) == Some((CompileBody(NoItem, anchored), rest))
  {
    if anchored {
      assert ("$" + rest)[1..] == rest;
      assert ReadBranch(rest) == Some((Branch.Empty, rest));
      PieceFirst("$" + rest, End, rest, Branch.Empty, rest);
    } else {
      ConcatAssociates(rest, [], []);
    }
  }

  lemma {:induction false} ReadsBody(b: Body, anchored: bool, rest: string)
    requires BodyOk(b) && EndsBranch(rest)
    ensures var text := EmitBody(b) + Closing(anchored) + rest;
            !StartsWith(text, '{') && ReadBranch(text) == Some((CompileBody(b, anchored), rest))
    decreases b, 0
  {
    match b
    case NoItem =>
      ReadsClosing(anchored, rest);
      ConcatAssociates(Closing(anchored), [], []);
    case Items(first, others) =>
      hide ReadPiece, ReadBranch, Compile, Emit, EmitBody, Closing;
      ReadsBody(others, anchored, rest);
      TextOfBody(first, others, Closing(anchored), rest);
      ReadsItem(first, EmitBody(others) + Closing(anchored) + rest);
      PieceFirst(EmitBody(b) + Closing(anchored) + rest, Compile(first), EmitBody(others) + Closing(anchored) + rest,
                 CompileBody(others, anchored), rest);
  }

  lemma TextOfBody(first: Item, others: Body, closing: string, rest: string)
    ensures var text := EmitBody(Items(first, others)) + closing + rest;
            text == Emit(first) + (EmitBody(others) + closing + rest) && Opens(text)
  {
    hide *;
    EmitBodyStep(first, others);
    ConcatAssociates(Emit(first), EmitBody(others), closing);
    ConcatAssociates(Emit(first), EmitBody(others) + closing, rest);
    OpensFirst(first, EmitBody(others) + closing + rest);
  }

  lemma EmitBodyStep(first: Item, others: Body)
    ensures EmitBody(Items(first, others)) == Emit(first) + EmitBody(others)
  {
    hide Emit;
    assert ([Emit(first)] + EmitEach(others))[1..] == EmitEach(others);
  }

  lemma OpensFirst(first: Item, rest: string)
    ensures Opens(Emit(first) + rest)
  {
    EmitOpens(first);
    hide Emit;
  }

  lemma {:induction false} ConcatOfParts(a: seq<string>, b: seq<string>)
    ensures Concat(a + b) == Concat(a) + Concat(b)
    decreases |a|
  {
    if a == [] {
      ConcatAssociates(b, [], []);
      ConcatAssociates(Concat(b), [], []);
    } else {
      assert (a + b)[1..] == a[1..] + b;
      ConcatOfParts(a[1..], b);
      ConcatAssociates(a[0], Concat(a[1..]), Concat(b));
    }
  }

  lemma TextOfPattern(p: Pattern)
    ensures ToRegex(p) == (if p.startAnchor then "^" else "") + (EmitBody(p.body) + Closing(p.endAnchor))
  {
    var first, last := if p.startAnchor then ["^"] else [], if p.endAnchor then ["$"] else [];
    ConcatOfParts(first + EmitEach(p.body), last);
    ConcatOfParts(first, EmitEach(p.body));
    assert Concat(last) == Closing(p.endAnchor);
    ConcatAssociates(Concat(first), EmitBody(p.body), Concat(last));
  }

  /** The emitted text is read, whole, as the expression that the pattern stands for. */
  lemma TextIsRead(p: Pattern)
    requires PatternOk(p)
    ensures Parse(ToRegex(p)) == Some(Only(CompilePattern(p)))
  {
    var text := EmitBody(p.body) + Closing(p.endAnchor);
    TextOfPattern(p);
    ReadsBody(p.body, p.endAnchor, []);
    ConcatAssociates(text, [], []);
    if p.startAnchor {
      assert ("^" + text)[1..] == text;
      PieceFirst("^" + text, Start, text, CompileBody(p.body, p.endAnchor), []);
    }
  }

  // ---- main results ----

  /** For every pattern the emitted expression matches what the pattern matches, with commas let through. */
  lemma MeaningIsKept(p: Pattern, data: seq<byte>, i: nat, j: nat)
    requires PatternOk(p) && i <= j <= |data|
    ensures Matches(ToRegex(p), data, i, j) <==> PatternMatches(p, true, data, i, j)
  {
    TextIsRead(p);
    PatternMeaning(p, data, i, j);
  }

  lemma {:induction false} ItemLoosens(it: Item, data: seq<byte>, i: nat, j: nat)
    requires ItemOk(it) && i <= j <= |data|
    ensures ItemMatches(it, false, data, i, j) ==> ItemMatches(it, true, data, i, j)
    ensures OnlyCommas(it) ==> (ItemMatches(it, false, data, i, j) <==> ItemMatches(it, true, data, i, j))
    decreases it, 0
  {
    if it.Alternative? {
      BodiesLoosen(it.bodies, data, i, j);
    }
  }

  lemma {:induction false} BodiesLoosen(bs: Bodies, data: seq<byte>, i: nat, j: nat)
    requires BodiesOk(bs) && i <= j <= |data|
    ensures BodiesMatch(bs, false, data, i, j) ==> BodiesMatch(bs, true, data, i, j)
    ensures OnlyCommasInBodies(bs) ==> (BodiesMatch(bs, false, data, i, j) <==> BodiesMatch(bs, true, data, i, j))
    decreases bs, 0
  {
    BodyLoosens(bs.body, data, i, j);
    if bs.Bodies? {
      BodiesLoosen(bs.others, data, i, j);
    }
  }

  /** Where the first item of a matched body ends. */
  lemma FirstEnds(b: Body, comma: bool, data: seq<byte>, i: nat, j: nat) returns (m: nat)
    requires BodyOk(b) && b.Items? && i <= j <= |data| && BodyMatches(b, comma, data, i, j)
    ensures i <= m <= j && ItemMatches(b.first, comma, data, i, m) && BodyMatches(b.rest, comma, data, m, j)
  {
    m :| i <= m <= j && ItemMatches(b.first, comma, data, i, m) && BodyMatches(b.rest, comma, data, m, j);
  }

  lemma {:induction false} BodyLoosens(b: Body, data: seq<byte>, i: nat, j: nat)
    requires BodyOk(b) && i <= j <= |data|
    ensures BodyMatches(b, false, data, i, j) ==> BodyMatches(b, true, data, i, j)
    ensures OnlyCommasInBody(b) ==> (BodyMatches(b, false, data, i, j) <==> BodyMatches(b, true, data, i, j))
    decreases b, 0
  {
    if b.Items? && BodyMatches(b, false, data, i, j) {
      var m := FirstEnds(b, false, data, i, j);
      ItemLoosens(b.first, data, i, m);
      BodyLoosens(b.rest, data, m, j);
    }
    if b.Items? && OnlyCommasInBody(b) && BodyMatches(b, true, data, i, j) {
      var m := FirstEnds(b, true, data, i, j);
      ItemLoosens(b.first, data, i, m);
      BodyLoosens(b.rest, data, m, j);
    }
  }

  /** Every first-nibble wildcard has the second digit of the comma, hexadecimal 2C. */
  predicate OnlyCommas(it: Item) {
    match it
    case FirstNibble(l) => IsHexDigit(l) && Nibble(l) == 0xC
    case Alternative(bodies) => OnlyCommasInBodies(bodies)
    case _ => true
  }

  predicate OnlyCommasInBody(b: Body) {
    b.Items? ==> OnlyCommas(b.first) && OnlyCommasInBody(b.rest)
  }

  predicate OnlyCommasInBodies(bs: Bodies) {
    OnlyCommasInBody(bs.body) && (bs.Bodies? ==> OnlyCommasInBodies(bs.others))
  }

  /** Nothing the pattern matches is lost, and without stray commas nothing is added either. */
  lemma NothingIsLost(p: Pattern, data: seq<byte>, i: nat, j: nat)
    requires PatternOk(p) && i <= j <= |data|
    ensures PatternMatches(p, false, data, i, j) ==> Matches(ToRegex(p), data, i, j)
    ensures OnlyCommasInBody(p.body) ==> (Matches(ToRegex(p), data, i, j) <==> PatternMatches(p, false, data, i, j))
  {
    MeaningIsKept(p, data, i, j);
    BodyLoosens(p.body, data, i, j);
  }

  // ---- for patterns without alternatives the condition is exact ----

  predicate Straight(b: Body) {
    b.Items? ==> !b.first.Alternative? && Straight(b.rest)
  }

  /** The shortest data an item matches, with a comma where the first digit is open. */
  function Shortest(it: Item): seq<byte>
    requires ItemOk(it) && !it.Alternative?
  {
    match it
    case Literal(h, l) => [16 * Nibble(h) + Nibble(l)]
    case Wildcard => [0]
    case FirstNibble(_) => [',' as int]
    case SecondNibble(h) => [16 * Nibble(h)]
    case Jump(n) => Zeros(Decimal(n))
    case RangeJump(a, _) => Zeros(Decimal(a))
  }

  function ShortestOf(b: Body): seq<byte>
    requires BodyOk(b) && Straight(b)
  {
    match b
    case NoItem => []
    case Items(first, rest) => Shortest(first) + ShortestOf(rest)
  }

  lemma ShortestMatches(it: Item, data: seq<byte>, i: nat)
    requires ItemOk(it) && !it.Alternative? && i + |Shortest(it)| <= |data|
    requires data[i..i + |Shortest(it)|] == Shortest(it)
    ensures ItemMatches(it, true, data, i, i + |Shortest(it)|)
    ensures forall m :: i <= m <= |data| && ItemMatches(it, false, data, i, m) ==> m >= i + |Shortest(it)|
    ensures ItemMatches(it, false, data, i, i + |Shortest(it)|) ==> OnlyCommas(it)
  {
    if |Shortest(it)| > 0 {
      assert data[i] == data[i..i + |Shortest(it)|][0];
    }
  }

  lemma {:induction false} AtLeastShortest(b: Body, data: seq<byte>, i: nat, j: nat)
    requires BodyOk(b) && Straight(b) && i <= j <= |data| && BodyMatches(b, false, data, i, j)
    ensures j - i >= |ShortestOf(b)|
    decreases b
  {
    if b.Items? {
      var m := FirstEnds(b, false, data, i, j);
      AtLeastShortest(b.rest, data, m, j);
    }
  }

  lemma ShortestSplits(b: Body, data: seq<byte>, i: nat)
    requires b.Items? && BodyOk(b) && Straight(b) && i <= |data| && data[i..] == ShortestOf(b)
    ensures var n := i + |Shortest(b.first)|;
            n <= |data| && data[i..n] == Shortest(b.first) && data[n..] == ShortestOf(b.rest)
    ensures |data| - i == |Shortest(b.first)| + |ShortestOf(b.rest)|
  {
    hide Shortest;
    var n := i + |Shortest(b.first)|;
    assert |data[i..]| == |Shortest(b.first)| + |ShortestOf(b.rest)|;
    assert data[i..n] == data[i..][..n - i] && data[n..] == data[i..][n - i..];
  }

  lemma {:induction false} ShortestIsMatched(b: Body, data: seq<byte>, i: nat)
    requires BodyOk(b) && Straight(b) && i <= |data| && data[i..] == ShortestOf(b)
    ensures BodyMatches(b, true, data, i, |data|)
    decreases b
  {
    if b.Items? {
      ShortestSplits(b, data, i);
      hide Shortest, ItemMatches, ShortestOf;
      ShortestMatches(b.first, data, i);
      ShortestIsMatched(b.rest, data, i + |Shortest(b.first)|);
    }
  }

  /** Nothing but its shortest match leaves enough bytes to the rest. */
  lemma FirstIsShortest(b: Body, data: seq<byte>, i: nat)
    requires BodyOk(b) && Straight(b) && b.Items? && i <= |data| && data[i..] == ShortestOf(b)
    requires BodyMatches(b, false, data, i, |data|)
    ensures OnlyCommas(b.first)
    ensures i + |Shortest(b.first)| <= |data| && BodyMatches(b.rest, false, data, i + |Shortest(b.first)|, |data|)
  {
    var m := FirstEnds(b, false, data, i, |data|);
    ShortestSplits(b, data, i);
    hide Shortest, ItemMatches, ShortestOf, BodyMatches, OnlyCommas;
    ShortestMatches(b.first, data, i);
    AtLeastShortest(b.rest, data, m, |data|);
  }

  lemma {:induction false} ShortestTells(b: Body, data: seq<byte>, i: nat)
    requires BodyOk(b) && Straight(b) && i <= |data| && data[i..] == ShortestOf(b)
    requires BodyMatches(b, false, data, i, |data|)
    ensures OnlyCommasInBody(b)
    decreases b
  {
    hide Shortest, ShortestOf, BodyMatches, OnlyCommas;
    if b.Items? {
      FirstIsShortest(b, data, i);
      ShortestSplits(b, data, i);
      ShortestTells(b.rest, data, i + |Shortest(b.first)|);
    }
  }

  ghost predicate IsExact(p: Pattern)
    requires PatternOk(p)
  {
    forall data, i, j :: 0 <= i <= j <= |data| ==>
      (Matches(ToRegex(p), data, i, j) <==> PatternMatches(p, false, data, i, j))
  }

  /** A pattern without alternatives is compiled exactly just when no stray comma can get in. */
  lemma ExactIffOnlyCommas(p: Pattern)
    requires PatternOk(p) && Straight(p.body)
    ensures IsExact(p) <==> OnlyCommasInBody(p.body)
  {
    forall data: seq<byte>, i: nat, j: nat | i <= j <= |data| && OnlyCommasInBody(p.body)
      ensures Matches(ToRegex(p), data, i, j) <==> PatternMatches(p, false, data, i, j)
    {
      NothingIsLost(p, data, i, j);
    }
    var data := ShortestOf(p.body);
    assert data[0..] == data;
    ShortestIsMatched(p.body, data, 0);
    if BodyMatches(p.body, false, data, 0, |data|) {
      ShortestTells(p.body, data, 0);
    }
    MeaningIsKept(p, data, 0, |data|);
  }
}
