/**
 The regular expressions that patterns are compiled to, as a dialect of their own: concatenation,
 alternation in groups, bytes, classes, bounded repetition and anchors.  The text of an expression is read
 by a recursive descent parser; its meaning is a relation between two positions in the data.
 */
module Regexes {
  import opened Bytes

  datatype Member = Single(b: nat) | Range(lo: nat, hi: nat)

  datatype Members = NoMember | Member(first: Member, others: Members)

  datatype Atom =
    | Byte(b: nat)
    | Any
    | Class(members: Members)
    | Repeat(atom: Atom, least: nat, most: nat)
    | Group(regex: Regex)
    | Start
    | End

  datatype Branch = Empty | Then(first: Atom, rest: Branch)

  datatype Regex = Only(branch: Branch) | Either(branch: Branch, others: Regex)

  // ---- reading the text of an expression ----

  predicate StartsWith(s: string, c: char) {
    s != [] && s[0] == c
  }

  function HexValue(c: char): (v: Option<nat>)
    ensures v.Some? ==> v.value < 16
  {
    if '0' <= c <= '9' then Some(c as int - '0' as int)
    else if 'a' <= c <= 'f' then Some(c as int - 'a' as int + 10)
    else if 'A' <= c <= 'F' then Some(c as int - 'A' as int + 10)
    else None
  }

  /** A byte written as a backslash, an x and two hexadecimal digits. */
  function ReadByte(s: string): (r: Option<(nat, string)>)
    ensures r.Some? ==> |r.value.1| == |s| - 4
  {
    if |s| < 4 || s[0] != '\\' || s[1] != 'x' then None
    else
      var high :- HexValue(s[2]);
      var low :- HexValue(s[3]);
      Some((16 * high + low, s[4..]))
  }

  /** The members of a class up to the closing bracket; any other character stands for itself. */
  function ReadMembers(s: string): (r: Option<(Members, string)>)
    ensures r.Some? ==> |r.value.1| < |s|
    decreases |s|
  {
    if s == [] then None
    else if s[0] == ']' then Some((NoMember, s[1..]))
    else
      var (member, rest) :- ReadMember(s);
      var (others, end) :- ReadMembers(rest);
      Some((Member(member, others), end))
  }

  function ReadMember(s: string): (r: Option<(Member, string)>)
    requires s != []
    ensures r.Some? ==> |r.value.1| < |s|
  {
    if s[0] != '\\' then Some((Single(s[0] as int), s[1..]))
    else
      var (lo, rest) :- ReadByte(s);
      if !StartsWith(rest, '-') then Some((Single(lo), rest))
      else
        var (hi, end) :- ReadByte(rest[1..]);
        Some((Range(lo, hi), end))
  }

  predicate IsDigit(c: char) {
    '0' <= c <= '9'
  }

  predicate AllDigits(s: string) {
    s == [] || (IsDigit(s[0]) && AllDigits(s[1..]))
  }

  /** The value of the digits at the front, read from the left, and what follows them. */
  function ReadDigits(s: string, value: nat): (r: (nat, string))
    ensures |r.1| <= |s|
  {
    if s == [] || !IsDigit(s[0]) then (value, s)
    else ReadDigits(s[1..], 10 * value + (s[0] as int - '0' as int))
  }

  /** One number for a fixed count, two separated by a comma for a range. */
  function ReadBounds(s: string): (r: Option<((nat, nat), string)>)
    ensures r.Some? ==> |r.value.1| < |s|
  {
    if s == [] || !IsDigit(s[0]) then None
    else
      var (least, rest) := ReadDigits(s, 0);
      if StartsWith(rest, '}') then Some(((least, least), rest[1..]))
      else if !StartsWith(rest, ',') then None
      else
        var (most, end) := ReadDigits(rest[1..], 0);
        if StartsWith(end, '}') && least <= most then Some(((least, most), end[1..])) else None
  }

  function ReadAtom(s: string): (r: Option<(Atom, string)>)
    requires s != []
    ensures r.Some? ==> |r.value.1| < |s|
    decreases |s|, 0
  {
    if s[0] == '\\' then
      var (b, rest) :- ReadByte(s);
      Some((Byte(b), rest))
    else if s[0] == '.' then Some((Any, s[1..]))
    else if s[0] == '^' then Some((Start, s[1..]))
    else if s[0] == '$' then Some((End, s[1..]))
    else if s[0] == '[' then
      var (members, rest) :- ReadMembers(s[1..]);
      Some((Class(members), rest))
    else if s[0] == '(' then
      var (regex, rest) :- ReadRegex(s[1..]);
      if StartsWith(rest, ')') then Some((Group(regex), rest[1..])) else None
    else None
  }

  /** A repetition binds to the atom before it, and to nothing else. */
  function ReadPiece(s: string): (r: Option<(Atom, string)>)
    requires s != []
    ensures r.Some? ==> |r.value.1| < |s|
    decreases |s|, 1
  {
    var (atom, rest) :- ReadAtom(s);
    if !StartsWith(rest, '{') then Some((atom, rest))
    else
      var (bounds, end) :- ReadBounds(rest[1..]);
      Some((Repeat(atom, bounds.0, bounds.1), end))
  }

  predicate EndsBranch(s: string) {
    s == [] || s[0] == '|' || s[0] == ')'
  }

  function ReadBranch(s: string): (r: Option<(Branch, string)>)
    ensures r.Some? ==> |r.value.1| <= |s|
    decreases |s|, 2
  {
    if EndsBranch(s) then Some((Empty, s))
    else
      var (piece, rest) :- ReadPiece(s);
      var (others, end) :- ReadBranch(rest);
      Some((Then(piece, others), end))
  }

  function ReadRegex(s: string): (r: Option<(Regex, string)>)
    ensures r.Some? ==> |r.value.1| <= |s|
    decreases |s|, 3
  {
    var (branch, rest) :- ReadBranch(s);
    if !StartsWith(rest, '|') then Some((Only(branch), rest))
    else
      var (others, end) :- ReadRegex(rest[1..]);
      Some((Either(branch, others), end))
  }

  /** The whole text is one expression. */
  function Parse(s: string): Option<Regex> {
    match ReadRegex(s)
    case None => None
    case Some((regex, rest)) => if rest == [] then Some(regex) else None
  }

  // ---- what an expression matches ----

  predicate InClass(members: Members, b: byte) {
    members.Member? && (IsMember(members.first, b) || InClass(members.others, b))
  }

  predicate IsMember(m: Member, b: byte) {
    match m
    case Single(c) => b == c
    case Range(lo, hi) => lo <= b <= hi
  }

  /** The atom matches the data from `i` to `j`. */
  predicate AtomMatches(a: Atom, data: seq<byte>, i: nat, j: nat)
    requires i <= j <= |data|
    decreases a, 0
  {
    match a
    case Byte(b) => j == i + 1 && data[i] == b
    case Any => j == i + 1
    case Class(members) => j == i + 1 && InClass(members, data[i])
    case Repeat(atom, least, most) => exists n :: least <= n <= most && TimesMatches(atom, n, data, i, j)
    case Group(regex) => RegexMatches(regex, data, i, j)
    case Start => i == j == 0
    case End => i == j == |data|
  }

  predicate TimesMatches(a: Atom, n: nat, data: seq<byte>, i: nat, j: nat)
    requires i <= j <= |data|
    decreases a, 1, n
  {
    if n == 0 then i == j
    else exists m :: i <= m <= j && AtomMatches(a, data, i, m) && TimesMatches(a, n - 1, data, m, j)
  }

  predicate BranchMatches(b: Branch, data: seq<byte>, i: nat, j: nat)
    requires i <= j <= |data|
    decreases b, 0
  {
    match b
    case Empty => i == j
    case Then(first, rest) =>
      exists m :: i <= m <= j && AtomMatches(first, data, i, m) && BranchMatches(rest, data, m, j)
  }

  predicate RegexMatches(r: Regex, data: seq<byte>, i: nat, j: nat)
    requires i <= j <= |data|
    decreases r, 0
  {
    match r
    case Only(branch) => BranchMatches(branch, data, i, j)
    case Either(branch, others) => BranchMatches(branch, data, i, j) || RegexMatches(others, data, i, j)
  }

  /** The expression with this text matches the data from `i` to `j`. */
  predicate Matches(text: string, data: seq<byte>, i: nat, j: nat)
    requires i <= j <= |data|
  {
    match Parse(text)
    case None => false
    case Some(regex) => RegexMatches(regex, data, i, j)
  }
}
