/** The parsed regular expression tree of RE2 (class Regexp in re2/regexp.h,
    which is not part of this model), one constructor per kRegexp* operator
    that the printer's switch statements distinguish.  Parse flags appear
    only where the printer reads them: FoldCase on literals, NonGreedy on
    repetitions and WasDollar on end-of-text. */
module RegexpTree {

  import opened Wrappers

  /** A Unicode code point, 0 to Runemax (0x10FFFF). */
  type Codepoint = r: int | 0 <= r <= 0x10FFFF

  const MaxCodepoint := 0x10FFFF

  /** A range lo-hi of a character class. */
  datatype RuneRange = RuneRange(lo: Codepoint, hi: Codepoint)

  /** A character class: its ranges in iteration order, and the ranges of
      its negation as CharClass::Negate would produce them (negation is
      computed outside this model). */
  datatype CharClass = CharClass(ranges: seq<RuneRange>, negation: seq<RuneRange>)

  /** The number of runes in a list of ranges (CharClass::size()). */
  function RangesSize(rs: seq<RuneRange>): nat
  {
    if rs == [] then 0
    else (if rs[0].lo <= rs[0].hi then rs[0].hi - rs[0].lo + 1 else 0) + RangesSize(rs[1..])
  }

  /** Whether r lies in one of the ranges (CharClass::Contains). */
  predicate RangesContain(rs: seq<RuneRange>, r: int)
  {
    rs != [] && (rs[0].lo <= r <= rs[0].hi || RangesContain(rs[1..], r))
  }

  function Size(cc: CharClass): nat
  {
    RangesSize(cc.ranges)
  }

  predicate Contains(cc: CharClass, r: int)
  {
    RangesContain(cc.ranges, r)
  }

  /** CharClass::full(): every code point is in the class. */
  predicate Full(cc: CharClass)
  {
    Size(cc) == MaxCodepoint + 1
  }

  datatype Regexp =
    | NoMatch
    | EmptyMatch
    | Literal(rune: Codepoint, foldCase: bool)
    | LiteralString(runes: seq<Codepoint>, foldCase: bool)
    | Concat(subs: seq<Regexp>)
    | Alternate(subs: seq<Regexp>)
    | Star(sub: Regexp, nonGreedy: bool)
    | Plus(sub: Regexp, nonGreedy: bool)
    | Quest(sub: Regexp, nonGreedy: bool)
      /** max == -1 means no upper bound. */
    | Repeat(sub: Regexp, min: int, max: int, nonGreedy: bool)
    | Capture(sub: Regexp, cap: int, name: Option<string>)
    | AnyChar
    | AnyByte
    | BeginLine
    | EndLine
    | BeginText
    | EndText(wasDollar: bool)
    | WordBoundary
    | NoWordBoundary
    | Class(cc: CharClass)
    | HaveMatch(matchId: int)

  /** The operators the printer treats as repetitions. */
  predicate IsRepetition(re: Regexp)
  {
    re.Star? || re.Plus? || re.Quest? || re.Repeat?
  }

  /** Every alternation in the tree has at least one branch (RE2's parser
      and simplifier never build an empty one; the printer relies on it
      when it removes the last branch's '|'). */
  predicate WellFormed(re: Regexp)
    decreases re
  {
    match re
    case Concat(subs) => forall i :: 0 <= i < |subs| ==> WellFormed(subs[i])
    case Alternate(subs) => |subs| >= 1 && forall i :: 0 <= i < |subs| ==> WellFormed(subs[i])
    case Star(sub, _) => WellFormed(sub)
    case Plus(sub, _) => WellFormed(sub)
    case Quest(sub, _) => WellFormed(sub)
    case Repeat(sub, _, _, _) => WellFormed(sub)
    case Capture(sub, _, _) => WellFormed(sub)
    case _ => true
  }
}
