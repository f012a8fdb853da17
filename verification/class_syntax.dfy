/** A reader for the rune syntax the printer writes inside and outside
    character classes.  It is the partner of AppendCCChar, AppendCCRange,
    AppendLiteral and the character-class case of PostVisit
    (re2/tostring.cc:160-173, 296-315, 337-380): reading what they write
    gives back the runes, ranges and flags they were given.  The escapes
    make this possible: no rune's text starts with ']', '^' or '-', so a
    range, the end of a class and a negated class are never confused. */
module ClassSyntax {

  import opened Wrappers
  import opened RegexpTree
  import opened ToString
  import Format

  /** A rune read from the front of a text, and the number of characters
      it took. */
  datatype Token = Token(rune: Codepoint, width: nat)

  /** The number of hexadecimal digits at the front of s. */
  function HexDigits(s: string): (n: nat)
    ensures n <= |s|
  {
    if s != [] && Format.IsDigit(s[0], 16) then 1 + HexDigits(s[1..]) else 0
  }

  /** HexDigits counts exactly the leading run of digits. */
  lemma {:induction false} HexDigitsRun(s: string)
    ensures forall i :: 0 <= i < HexDigits(s) ==> Format.IsDigit(s[i], 16)
    ensures HexDigits(s) < |s| ==> !Format.IsDigit(s[HexDigits(s)], 16)
  {
    if s != [] && Format.IsDigit(s[0], 16) {
      HexDigitsRun(s[1..]);
    }
  }

  /** Reads one rune as AppendCCChar writes it: a printable character that
      needs no escape, a backslash before one of "[]^-\\", \r \t \n \f,
      \x and two hex digits, or \x{...}. */
  function ParseCCChar(s: string): (res: Option<Token>)
    ensures res.Some? ==> 1 <= res.value.width <= |s|
  {
    if |s| == 0 then None
    else if s[0] != '\\' then
      if Printable(s[0]) && !ClassMeta(s[0]) then Some(Token(s[0] as int, 1)) else None
    else if |s| < 2 then None
    else if ClassMeta(s[1]) then Some(Token(s[1] as int, 2))
    else if s[1] == 'r' then Some(Token(0x0D, 2))
    else if s[1] == 't' then Some(Token(0x09, 2))
    else if s[1] == 'n' then Some(Token(0x0A, 2))
    else if s[1] == 'f' then Some(Token(0x0C, 2))
    else if s[1] != 'x' || |s| < 4 then None
    else if s[2] == '{' then
      var n := HexDigits(s[3..]);
      HexDigitsRun(s[3..]);
      if n == 0 || 3 + n >= |s| || s[3 + n] != '}' then None
      else
        var v := Format.NumeralValue(s[3..3 + n], 16);
        if v <= MaxCodepoint then Some(Token(v, n + 4)) else None
    else if Format.IsDigit(s[2], 16) && Format.IsDigit(s[3], 16) then
      var v := Format.NumeralValue(s[2..4], 16);
      if v <= MaxCodepoint then Some(Token(v, 4)) else None
    else None
  }

  /** A range read from the front of a text, and its width. */
  datatype RangeToken = RangeToken(range: RuneRange, width: nat)

  /** Reads "lo-hi" or a single rune lo (the range lo-lo), each rune read
      by readChar. */
  function ReadRange(readChar: string -> Option<Token>, s: string): Option<RangeToken>
  {
    match readChar(s)
    case None => None
    case Some(first) =>
      var k := first.width;
      if k < |s| && s[k] == '-' then
        match readChar(s[k + 1..])
        case None => None
        case Some(second) =>
          Some(RangeToken(RuneRange(first.rune, second.rune), k + 1 + second.width))
      else Some(RangeToken(RuneRange(first.rune, first.rune), k))
  }

  /** A range written with AppendCCChar's syntax for its runes. */
  function ParseCCRange(s: string): (res: Option<RangeToken>)
    ensures res.Some? ==> 1 <= res.value.width <= |s|
  {
    ReadRange(ParseCCChar, s)
  }

  /** The ranges of a class body read up to (not including) the ']' that
      ends it, and the width they took. */
  datatype RangesToken = RangesToken(ranges: seq<RuneRange>, width: nat)

  /** A class body: ranges read one after another by readRange, up to the
      ']' that ends the class.  A reading that consumes nothing, or more
      than there is, is refused. */
  function ReadRanges(readRange: string -> Option<RangeToken>, s: string): (res: Option<RangesToken>)
    decreases |s|
  {
    if |s| == 0 then None
    else if s[0] == ']' then Some(RangesToken([], 0))
    else
      match readRange(s)
      case None => None
      case Some(head) =>
        if head.width == 0 || head.width > |s| then None
        else
          match ReadRanges(readRange, s[head.width..])
          case None => None
          case Some(tail) => Some(RangesToken([head.range] + tail.ranges, head.width + tail.width))
  }

  /** A whole class "[...]" or "[^...]": whether it is negated, its ranges,
      and its width. */
  datatype ClassToken = ClassToken(negated: bool, ranges: seq<RuneRange>, width: nat)

  /** A whole class whose ranges are read by readRange. */
  function ReadClass(readRange: string -> Option<RangeToken>, s: string): (res: Option<ClassToken>)
  {
    if |s| < 2 || s[0] != '[' then None
    else
      var negated := s[1] == '^';
      var start := if negated then 2 else 1;
      match ReadRanges(readRange, s[start..])
      case None => None
      case Some(body) => Some(ClassToken(negated, body.ranges, start + body.width + 1))
  }

  /** A class written with AppendCCRange's syntax. */
  function ParseClass(s: string): Option<ClassToken>
  {
    ReadClass(ParseCCRange, s)
  }

  /** The ranges that print as something: AppendCCRange writes nothing for
      a range with lo > hi. */
  function Visible(rs: seq<RuneRange>): (vs: seq<RuneRange>)
    ensures forall i :: 0 <= i < |vs| ==> vs[i].lo <= vs[i].hi
  {
    if rs == [] then []
    else if rs[0].lo <= rs[0].hi then [rs[0]] + Visible(rs[1..])
    else Visible(rs[1..])
  }

  /** A literal rune read from the front of a text: the rune, whether it was
      written as a case-folded pair "[Xx]", and its width. */
  datatype LiteralToken = LiteralToken(rune: Codepoint, folded: bool, width: nat)

  function ParseLiteral(s: string): (res: Option<LiteralToken>)
    ensures res.Some? ==> 1 <= res.value.width <= |s|
  {
    if |s| >= 2 && s[0] == '\\' && LiteralMeta(s[1]) then Some(LiteralToken(s[1] as int, false, 2))
    else if |s| >= 4 && s[0] == '[' && 'A' <= s[1] <= 'Z' && s[3] == ']'
            && s[2] as int == s[1] as int + ('a' as int - 'A' as int) then
      Some(LiteralToken(s[2] as int, true, 4))
    else
      match ParseCCChar(s)
      case None => None
      case Some(tok) => Some(LiteralToken(tok.rune, false, tok.width))
  }
}
