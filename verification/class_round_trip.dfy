/** The round trips between the printer's rune and class syntax and the
    reader in ClassSyntax: what AppendCCChar, AppendCCRange, AppendLiteral
    and the character-class case of PostVisit write reads back as what
    they were given (re2/tostring.cc:160-173, 296-315, 337-380). */
module ClassRoundTrip {

  import opened Wrappers
  import opened RegexpTree
  import opened ToString
  import opened ClassSyntax
  import Format

  // ---------------------------------------------------------------------
  // Reading single escapes.

  lemma {:induction false} HexDigitsOf(d: string, rest: string)
    requires forall i :: 0 <= i < |d| ==> Format.IsDigit(d[i], 16)
    requires rest != [] && !Format.IsDigit(rest[0], 16)
    ensures HexDigits(d + rest) == |d|
    decreases |d|
  {
    if d == [] {
      assert d + rest == rest;
    } else {
      assert (d + rest)[1..] == d[1..] + rest;
      HexDigitsOf(d[1..], rest);
    }
  }

  lemma {:induction false} DropFront(a: string, b: string)
    ensures (a + b)[|a|..] == b
  {
  }

  lemma {:induction false} PlainRead(c: char, rest: string)
    requires Printable(c) && !ClassMeta(c)
    ensures ParseCCChar([c] + rest) == Some(Token(c as int, 1))
  {
  }

  lemma {:induction false} EscapedRead(c: char, rest: string)
    requires ClassMeta(c)
    ensures ParseCCChar("\\" + [c] + rest) == Some(Token(c as int, 2))
  {
    var s := "\\" + [c] + rest;
    assert s[0] == '\\' && s[1] == c;
  }

  lemma {:induction false} ControlRead(rest: string)
    ensures ParseCCChar("\\r" + rest) == Some(Token(0x0D, 2))
    ensures ParseCCChar("\\t" + rest) == Some(Token(0x09, 2))
    ensures ParseCCChar("\\n" + rest) == Some(Token(0x0A, 2))
    ensures ParseCCChar("\\f" + rest) == Some(Token(0x0C, 2))
  {
  }

  lemma {:induction false} Hex2Read(h: string, rest: string)
    requires |h| == 2 && Format.IsDigit(h[0], 16) && Format.IsDigit(h[1], 16)
    requires Format.NumeralValue(h, 16) < 0x100
    ensures ParseCCChar("\\x" + h + rest) == Some(Token(Format.NumeralValue(h, 16), 4))
  {
    var s := "\\x" + h + rest;
    assert s[0] == '\\' && s[1] == 'x' && s[2] == h[0] && s[3] == h[1];
    assert s[2..4] == h;
  }

  lemma {:induction false} HexBracesRead(h: string, rest: string)
    requires |h| >= 1 && forall i :: 0 <= i < |h| ==> Format.IsDigit(h[i], 16)
    requires Format.NumeralValue(h, 16) <= MaxCodepoint
    ensures ParseCCChar("\\x{" + h + "}" + rest) == Some(Token(Format.NumeralValue(h, 16), |h| + 4))
  {
    var s := "\\x{" + h + "}" + rest;
    HexBracesShape(h, rest);
    HexDigitsOf(h, "}" + rest);
    HexBracesParse(s, h);
  }

  /** The characters of "\\x{h}rest", position by position. */
  lemma {:induction false} HexBracesShape(h: string, rest: string)
    ensures var s := "\\x{" + h + "}" + rest;
      |s| == |h| + 4 + |rest| && s[0] == '\\' && s[1] == 'x' && s[2] == '{'
      && s[3..] == h + ("}" + rest) && s[3..3 + |h|] == h && s[3 + |h|] == '}'
  {
    var s := "\\x{" + h + "}" + rest;
    assert s[3..] == h + ("}" + rest);
  }

  lemma {:induction false} HexBracesParse(s: string, h: string)
    requires |s| >= |h| + 4 && s[0] == '\\' && s[1] == 'x' && s[2] == '{'
    requires |h| >= 1 && HexDigits(s[3..]) == |h| && s[3..3 + |h|] == h && s[3 + |h|] == '}'
    requires forall i :: 0 <= i < |h| ==> Format.IsDigit(h[i], 16)
    requires Format.NumeralValue(h, 16) <= MaxCodepoint
    ensures ParseCCChar(s) == Some(Token(Format.NumeralValue(h, 16), |h| + 4))
  {
  }

  // ---------------------------------------------------------------------
  // Round trips.

  /** Reading what AppendCCChar wrote gives back the rune and consumes
      exactly its text, whatever follows. */
  lemma {:induction false} CCCharRoundTrip(r: Codepoint, rest: string)
    ensures ParseCCChar(CCChar(r) + rest) == Some(Token(r, |CCChar(r)|))
  {
    if 0x20 <= r <= 0x7E {
      var c := r as char;
      if ClassMeta(c) {
        EscapedRead(c, rest);
      } else {
        PlainRead(c, rest);
      }
    } else if r == 0x0D || r == 0x09 || r == 0x0A || r == 0x0C {
      ControlRead(rest);
    } else if r < 0x100 {
      Format.Hex2RoundTrip(r);
      Hex2Read(Format.Hex2(r), rest);
    } else {
      Format.HexRoundTrip(r);
      HexBracesRead(Format.Hex(r), rest);
    }
  }

  /** readChar reads back every rune as AppendCCChar wrote it, whatever
      follows. */
  ghost predicate ReadsChars(readChar: string -> Option<Token>)
  {
    forall r: Codepoint, x: string {:trigger readChar(CCChar(r) + x)} ::
      readChar(CCChar(r) + x) == Some(Token(r, |CCChar(r)|))
  }

  /** CCCharRoundTrip for every rune and every continuation at once. */
  lemma {:induction false} AllCharsRoundTrip()
    ensures forall r: Codepoint, x: string {:trigger ParseCCChar(CCChar(r) + x)} :: ParseCCChar(CCChar(r) + x) == Some(Token(r, |CCChar(r)|))
  {
    forall r: Codepoint, x: string {:trigger ParseCCChar(CCChar(r) + x)}
      ensures ParseCCChar(CCChar(r) + x) == Some(Token(r, |CCChar(r)|))
    {
      CCCharRoundTrip(r, x);
    }
  }

  /** ParseCCChar is such a reader. */
  lemma {:induction false} ParseCCCharReadsChars()
    ensures ReadsChars(ParseCCChar)
  {
    AllCharsRoundTrip();
  }

  /** The parts of a range read back as a range. */
  lemma {:induction false} RangeRead(readChar: string -> Option<Token>, a: string, b: string, rest: string, lo: Codepoint, hi: Codepoint)
    requires readChar(a + ("-" + b + rest)) == Some(Token(lo, |a|))
    requires readChar(b + rest) == Some(Token(hi, |b|))
    ensures ReadRange(readChar, a + "-" + b + rest) == Some(RangeToken(RuneRange(lo, hi), |a| + 1 + |b|))
  {
    var s := a + "-" + b + rest;
    assert s == a + ("-" + b + rest);
    assert s[|a|] == '-' && s[|a| + 1..] == b + rest;
  }

  /** A single rune followed by something other than '-' reads back as a
      one-rune range. */
  lemma {:induction false} SingleRead(readChar: string -> Option<Token>, a: string, rest: string, lo: Codepoint)
    requires readChar(a + rest) == Some(Token(lo, |a|))
    requires rest == [] || rest[0] != '-'
    ensures ReadRange(readChar, a + rest) == Some(RangeToken(RuneRange(lo, lo), |a|))
  {
    if rest != [] {
      assert (a + rest)[|a|] == rest[0];
    }
  }

  /** A range of two or more runes reads back. */
  lemma {:induction false} PairRead(readChar: string -> Option<Token>, lo: Codepoint, hi: Codepoint, rest: string)
    requires ReadsChars(readChar) && lo < hi
    ensures ReadRange(readChar, CCRange(lo, hi) + rest) == Some(RangeToken(RuneRange(lo, hi), |CCRange(lo, hi)|))
  {
    var a, b := CCChar(lo), CCChar(hi);
    CharThen(readChar, lo, "-" + b + rest);
    CharThen(readChar, hi, rest);
    RangeRead(readChar, a, b, rest, lo, hi);
    PairText(lo, hi);
  }

  lemma {:induction false} CharThen(readChar: string -> Option<Token>, r: Codepoint, x: string)
    requires ReadsChars(readChar)
    ensures readChar(CCChar(r) + x) == Some(Token(r, |CCChar(r)|))
  {
  }

  lemma {:induction false} PairText(lo: Codepoint, hi: Codepoint)
    requires lo < hi
    ensures CCRange(lo, hi) == CCChar(lo) + "-" + CCChar(hi)
  {
  }

  /** Any non-empty range reads back when the next character is not a '-'. */
  lemma {:induction false} CCRangeRead(readChar: string -> Option<Token>, lo: Codepoint, hi: Codepoint, rest: string)
    requires ReadsChars(readChar) && lo <= hi
    requires rest == [] || rest[0] != '-'
    ensures ReadRange(readChar, CCRange(lo, hi) + rest) == Some(RangeToken(RuneRange(lo, hi), |CCRange(lo, hi)|))
  {
    if lo < hi {
      PairRead(readChar, lo, hi, rest);
    } else {
      CharThen(readChar, lo, rest);
      SingleRead(readChar, CCChar(lo), rest, lo);
    }
  }

  /** Reading what AppendCCRange wrote for a non-empty range gives back the
      range, provided the next character is not a '-' (no rune's text
      starts with one, and neither does the ']' that closes a class). */
  lemma {:induction false} CCRangeRoundTrip(lo: Codepoint, hi: Codepoint, rest: string)
    requires lo <= hi
    requires rest == [] || rest[0] != '-'
    ensures ParseCCRange(CCRange(lo, hi) + rest) == Some(RangeToken(RuneRange(lo, hi), |CCRange(lo, hi)|))
  {
    ParseCCCharReadsChars();
    CCRangeRead(ParseCCChar, lo, hi, rest);
  }

  /** No range's text starts with ']', '^' or '-'. */
  lemma {:induction false} RangesTextHead(rs: seq<RuneRange>)
    ensures RangesText(rs) != [] ==> RangesText(rs)[0] != ']' && RangesText(rs)[0] != '^' && RangesText(rs)[0] != '-'
  {
    if rs != [] && rs[0].lo > rs[0].hi {
      RangesTextHead(rs[1..]);
    }
  }

  /** readRange reads back every non-empty range as AppendCCRange wrote
      it, whatever follows that does not start with '-'. */
  ghost predicate ReadsRanges(readRange: string -> Option<RangeToken>)
  {
    forall lo: Codepoint, hi: Codepoint, x: string {:trigger readRange(CCRange(lo, hi) + x)} ::
      lo <= hi && (x == [] || x[0] != '-')
      ==> readRange(CCRange(lo, hi) + x) == Some(RangeToken(RuneRange(lo, hi), |CCRange(lo, hi)|))
  }

  /** ParseCCRange is such a reader. */
  lemma {:induction false} ParseCCRangeReadsRanges()
    ensures ReadsRanges(ParseCCRange)
  {
    forall lo: Codepoint, hi: Codepoint, x: string {:trigger ParseCCRange(CCRange(lo, hi) + x)}
      | lo <= hi && (x == [] || x[0] != '-')
      ensures ParseCCRange(CCRange(lo, hi) + x) == Some(RangeToken(RuneRange(lo, hi), |CCRange(lo, hi)|))
    {
      CCRangeRoundTrip(lo, hi, x);
    }
  }

  /** One range, then the rest of the class body. */
  lemma {:induction false} RangesReadStep(readRange: string -> Option<RangeToken>, s: string, head: RangeToken, tail: RangesToken)
    requires |s| > 0 && s[0] != ']'
    requires readRange(s) == Some(head) && 1 <= head.width <= |s|
    requires ReadRanges(readRange, s[head.width..]) == Some(tail)
    ensures ReadRanges(readRange, s) == Some(RangesToken([head.range] + tail.ranges, head.width + tail.width))
  {
  }

  /** The text of one range followed by the rest of a class body reads as
      that range followed by the rest. */
  lemma {:induction false} RangeThenRanges(readRange: string -> Option<RangeToken>, head: string, tail: string, rest: string,
                        range: RuneRange, vs: seq<RuneRange>)
    requires head != [] && head[0] != ']'
    requires readRange(head + (tail + "]" + rest)) == Some(RangeToken(range, |head|))
    requires ReadRanges(readRange, tail + "]" + rest) == Some(RangesToken(vs, |tail|))
    ensures ReadRanges(readRange, head + tail + "]" + rest) == Some(RangesToken([range] + vs, |head| + |tail|))
  {
    var after := tail + "]" + rest;
    Append3(head, tail, "]", rest);
    DropFront(head, after);
    assert (head + after)[0] == head[0];
    RangesReadStep(readRange, head + after, RangeToken(range, |head|), RangesToken(vs, |tail|));
  }

  /** The text and the visible ranges of a list that starts with a range
      that prints as something. */
  lemma {:induction false} VisibleCons(rs: seq<RuneRange>)
    requires rs != [] && rs[0].lo <= rs[0].hi
    ensures RangesText(rs) == CCRange(rs[0].lo, rs[0].hi) + RangesText(rs[1..])
    ensures Visible(rs) == [rs[0]] + Visible(rs[1..])
  {
  }

  /** Reading the ranges AppendCCRange wrote, up to the closing ']', gives
      back the ranges in order, without the empty ones that printed as
      nothing. */
  lemma {:induction false} RangesRoundTrip(readRange: string -> Option<RangeToken>, rs: seq<RuneRange>, rest: string)
    requires ReadsRanges(readRange)
    ensures ReadRanges(readRange, RangesText(rs) + "]" + rest) == Some(RangesToken(Visible(rs), |RangesText(rs)|))
    decreases |rs|
  {
    if rs == [] {
      assert RangesText(rs) + "]" + rest == "]" + rest;
    } else {
      RangesRoundTrip(readRange, rs[1..], rest);
      if rs[0].lo <= rs[0].hi {
        VisibleRangeRead(readRange, rs, rest);
      } else {
        EmptyRangeRead(readRange, rs, rest);
      }
    }
  }

  /** A range that prints as something is read, then the rest. */
  lemma {:induction false} VisibleRangeRead(readRange: string -> Option<RangeToken>, rs: seq<RuneRange>, rest: string)
    requires ReadsRanges(readRange)
    requires rs != [] && rs[0].lo <= rs[0].hi
    requires ReadRanges(readRange, RangesText(rs[1..]) + "]" + rest)
             == Some(RangesToken(Visible(rs[1..]), |RangesText(rs[1..])|))
    ensures ReadRanges(readRange, RangesText(rs) + "]" + rest) == Some(RangesToken(Visible(rs), |RangesText(rs)|))
  {
    var head := CCRange(rs[0].lo, rs[0].hi);
    var tail := RangesText(rs[1..]);
    RangesTextHead(rs[1..]);
    BodyHead(tail, rest);
    RangeThen(readRange, rs[0].lo, rs[0].hi, tail + "]" + rest);
    RangeThenRanges(readRange, head, tail, rest, rs[0], Visible(rs[1..]));
    VisibleCons(rs);
  }

  lemma {:induction false} RangeThen(readRange: string -> Option<RangeToken>, lo: Codepoint, hi: Codepoint, x: string)
    requires ReadsRanges(readRange) && lo <= hi && (x == [] || x[0] != '-')
    ensures readRange(CCRange(lo, hi) + x) == Some(RangeToken(RuneRange(lo, hi), |CCRange(lo, hi)|))
  {
  }

  /** The rest of a class body after a range does not start with '-'. */
  lemma {:induction false} BodyHead(tail: string, rest: string)
    requires tail != [] ==> tail[0] != '-'
    ensures (tail + "]" + rest)[0] != '-'
  {
    if tail == [] {
      assert (tail + "]" + rest)[0] == ']';
    } else {
      assert (tail + "]" + rest)[0] == tail[0];
    }
  }

  /** A range that prints as nothing leaves the text as it was. */
  lemma {:induction false} EmptyRangeRead(readRange: string -> Option<RangeToken>, rs: seq<RuneRange>, rest: string)
    requires rs != [] && rs[0].lo > rs[0].hi
    requires ReadRanges(readRange, RangesText(rs[1..]) + "]" + rest)
             == Some(RangesToken(Visible(rs[1..]), |RangesText(rs[1..])|))
    ensures ReadRanges(readRange, RangesText(rs) + "]" + rest) == Some(RangesToken(Visible(rs), |RangesText(rs)|))
  {
    assert RangesText(rs) == RangesText(rs[1..]);
  }

  /** Reading the text of a non-empty class gives back its ranges, or
      those of its negation when the printer chose the negated form. */
  lemma {:induction false} ClassRoundTrip(cc: CharClass)
    requires Size(cc) != 0
    ensures ParseClass(ClassText(cc)) == Some(
              if Contains(cc, 0xFFFE) && !Full(cc)
              then ClassToken(true, Visible(cc.negation), |ClassText(cc)|)
              else ClassToken(false, Visible(cc.ranges), |ClassText(cc)|))
  {
    if Contains(cc, 0xFFFE) && !Full(cc) {
      NegatedParse(cc.negation, ClassText(cc));
    } else {
      PlainParse(cc.ranges, ClassText(cc));
    }
  }

  /** The negated form "[^...]" of a list of ranges reads back as the
      negated class of its visible ranges. */
  lemma {:induction false} NegatedParse(rs: seq<RuneRange>, s: string)
    requires s == "[^" + RangesText(rs) + "]"
    ensures ParseClass(s) == Some(ClassToken(true, Visible(rs), |s|))
  {
    ParseCCRangeReadsRanges();
    RangesRoundTrip(ParseCCRange, rs, "");
    assert RangesText(rs) + "]" + "" == RangesText(rs) + "]";
    NegatedClassRead(ParseCCRange, RangesText(rs), Visible(rs));
  }

  /** The plain form "[...]" of a list of ranges reads back as the class of
      its visible ranges. */
  lemma {:induction false} PlainParse(rs: seq<RuneRange>, s: string)
    requires s == "[" + RangesText(rs) + "]"
    ensures ParseClass(s) == Some(ClassToken(false, Visible(rs), |s|))
  {
    ParseCCRangeReadsRanges();
    RangesRoundTrip(ParseCCRange, rs, "");
    assert RangesText(rs) + "]" + "" == RangesText(rs) + "]";
    RangesTextHead(rs);
    PlainClassRead(ParseCCRange, RangesText(rs), Visible(rs));
  }

  /** "[^", a body that reads as vs, and "]" read as the negated class vs. */
  lemma {:induction false} NegatedClassRead(readRange: string -> Option<RangeToken>, body: string, vs: seq<RuneRange>)
    requires ReadRanges(readRange, body + "]") == Some(RangesToken(vs, |body|))
    ensures ReadClass(readRange, "[^" + body + "]") == Some(ClassToken(true, vs, |body| + 3))
  {
    NegatedShape(body);
    ClassBodyRead(readRange, "[^" + body + "]", true, body + "]", vs, |body|);
  }

  lemma {:induction false} NegatedShape(body: string)
    ensures var s := "[^" + body + "]";
      |s| == |body| + 3 && s[0] == '[' && s[1] == '^' && s[2..] == body + "]"
  {
    var s := "[^" + body + "]";
    assert s[2..] == body + "]";
  }

  /** "[", a body that reads as vs and does not start with '^', and "]"
      read as the class vs. */
  lemma {:induction false} PlainClassRead(readRange: string -> Option<RangeToken>, body: string, vs: seq<RuneRange>)
    requires body == [] || body[0] != '^'
    requires ReadRanges(readRange, body + "]") == Some(RangesToken(vs, |body|))
    ensures ReadClass(readRange, "[" + body + "]") == Some(ClassToken(false, vs, |body| + 2))
  {
    PlainShape(body);
    ClassBodyRead(readRange, "[" + body + "]", false, body + "]", vs, |body|);
  }

  lemma {:induction false} PlainShape(body: string)
    requires body == [] || body[0] != '^'
    ensures var s := "[" + body + "]";
      |s| == |body| + 2 && s[0] == '[' && s[1] != '^' && s[1..] == body + "]"
  {
    var s := "[" + body + "]";
    assert s[1..] == body + "]";
  }

  /** A class whose body, from the character after "[" or "[^", reads as
      the given ranges. */
  lemma {:induction false} ClassBodyRead(readRange: string -> Option<RangeToken>, s: string, negated: bool, t: string,
                      vs: seq<RuneRange>, w: nat)
    requires |s| >= 2 && s[0] == '[' && (s[1] == '^' <==> negated)
    requires s[if negated then 2 else 1..] == t
    requires ReadRanges(readRange, t) == Some(RangesToken(vs, w))
    ensures ReadClass(readRange, s) == Some(ClassToken(negated, vs, (if negated then 2 else 1) + w + 1))
  {
  }

  /** NoMatch and an empty class print as the negation of the one range
      covering every code point. */
  lemma {:induction false} NoMatchRoundTrip()
    ensures NoMatchText == "[^" + RangesText([RuneRange(0, MaxCodepoint)]) + "]"
    ensures ParseClass(NoMatchText) == Some(ClassToken(true, [RuneRange(0, MaxCodepoint)], |NoMatchText|))
  {
    NoMatchTextIsFullRange();
    FullRangeRead(NoMatchText);
  }

  lemma {:induction false} FullRangeRead(s: string)
    requires s == "[^" + RangesText([RuneRange(0, MaxCodepoint)]) + "]"
    ensures ParseClass(s) == Some(ClassToken(true, [RuneRange(0, MaxCodepoint)], |s|))
  {
    NegatedParse([RuneRange(0, MaxCodepoint)], s);
    VisibleFull();
  }

  lemma {:induction false} VisibleFull()
    ensures Visible([RuneRange(0, MaxCodepoint)]) == [RuneRange(0, MaxCodepoint)]
  {
    var rs := [RuneRange(0, MaxCodepoint)];
    assert Visible(rs[1..]) == [];
  }

  lemma {:induction false} NoMatchTextIsFullRange()
    ensures NoMatchText == "[^" + RangesText([RuneRange(0, MaxCodepoint)]) + "]"
  {
    NoMatchTextParts();
    FullRangesText();
  }

  lemma {:induction false} NoMatchTextParts()
    ensures NoMatchText == "[^" + "\\x00-\\x{10ffff}" + "]"
  {
  }

  /** The one range of every code point, as the class loop writes it. */
  lemma {:induction false} FullRangesText()
    ensures RangesText([RuneRange(0, MaxCodepoint)]) == "\\x00-\\x{10ffff}"
  {
    var rs := [RuneRange(0, MaxCodepoint)];
    FullRangeText();
    assert rs[1..] == [];
    assert RangesText(rs) == CCRange(0, MaxCodepoint) + RangesText([]);
  }

  /** The range of every code point, as AppendCCRange writes it. */
  lemma {:induction false} FullRangeText()
    ensures CCRange(0, MaxCodepoint) == "\\x00-\\x{10ffff}"
  {
    ZeroText();
    MaxText();
  }

  lemma {:induction false} ZeroText()
    ensures CCChar(0) == "\\x00"
  {
    assert Format.Hex2(0) == "00";
  }

  lemma {:induction false} MaxText()
    ensures CCChar(MaxCodepoint) == "\\x{10ffff}"
  {
    MaxHex();
  }

  /** Runemax in hexadecimal, one digit at a time. */
  lemma {:induction false} MaxHex()
    ensures Format.Hex(MaxCodepoint) == "10ffff"
  {
    assert Format.Numeral(0x1, 16) == "1";
    assert Format.Numeral(0x10, 16) == "10";
    assert Format.Numeral(0x10f, 16) == "10f";
    assert Format.Numeral(0x10ff, 16) == "10ff";
    assert Format.Numeral(0x10fff, 16) == "10fff";
    assert Format.Numeral(0x10ffff, 16) == "10ffff";
  }

  /** Where AppendCCChar writes a backslash, the character after it is not
      a literal metacharacter unless the rune itself is one. */
  lemma {:induction false} CCCharEscapeHead(r: Codepoint)
    ensures CCChar(r)[0] != '['
    ensures |CCChar(r)| >= 2 && CCChar(r)[0] == '\\' && LiteralMeta(CCChar(r)[1])
            ==> r != 0 && r < 0x80 && LiteralMeta(r as char)
  {
  }

  lemma {:induction false} LiteralFallsThrough(s: string, tok: Token)
    requires ParseCCChar(s) == Some(tok)
    requires s[0] != '['
    requires |s| >= 2 && s[0] == '\\' ==> !LiteralMeta(s[1])
    ensures ParseLiteral(s) == Some(LiteralToken(tok.rune, false, tok.width))
  {
  }

  /** Reading what AppendLiteral wrote gives back the rune; it reads as
      case-folded exactly when the printer wrote the pair "[Xx]", that is
      for a lower-case ASCII letter under case folding. */
  lemma {:induction false} LiteralRoundTrip(r: Codepoint, foldCase: bool, rest: string)
    ensures ParseLiteral(LiteralText(r, foldCase) + rest)
            == Some(LiteralToken(r, foldCase && 'a' as int <= r <= 'z' as int, |LiteralText(r, foldCase)|))
  {
    var s := LiteralText(r, foldCase) + rest;
    if r != 0 && r < 0x80 && LiteralMeta(r as char) {
      assert s[0] == '\\' && s[1] == r as char;
    } else if foldCase && 'a' as int <= r <= 'z' as int {
      assert s[0] == '[' && s[1] as int == r - 32 && s[2] == r as char && s[3] == ']';
    } else {
      CCCharRoundTrip(r, rest);
      CCCharEscapeHead(r);
      assert LiteralText(r, foldCase) == CCChar(r);
      assert s[0] == CCChar(r)[0];
      assert |CCChar(r)| >= 2 ==> s[1] == CCChar(r)[1];
      LiteralFallsThrough(s, Token(r, |CCChar(r)|));
    }
  }
}
