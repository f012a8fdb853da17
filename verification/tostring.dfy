/** Regexp::ToString (re2/tostring.cc): the printer that turns a regexp
    tree back into pattern text.  The walker appends to one buffer as it
    enters and leaves each node; Shown below says, node by node, what text a
    tree stands for, and ToStringWalker.Walk is proved to append exactly
    that. */
module ToString {

  import opened Wrappers
  import opened RegexpTree
  import Format

  // Context precedences, loosest binding last (tostring.cc:28-36).
  const PrecAtom := 0
  const PrecUnary := 1
  const PrecConcat := 2
  const PrecAlternate := 3
  const PrecEmpty := 4
  const PrecParen := 5
  const PrecToplevel := 6

  /** The characters AppendCCChar escapes with a backslash. */
  predicate ClassMeta(c: char)
  {
    c in "[]^-\\"
  }

  /** The characters AppendLiteral escapes with a backslash. */
  predicate LiteralMeta(c: char)
  {
    c in "(){}[]*+?|.^$\\"
  }

  /** The text of NoMatch and of an empty class: the negation of every
      code point. */
  const NoMatchText := "[^\\x00-\\x{10ffff}]"

  predicate Printable(c: char)
  {
    ' ' <= c <= '~'
  }

  // ---------------------------------------------------------------------
  // Runes in classes and literals.

  /** AppendCCChar (tostring.cc:337-370): a rune as it is written inside a
      character class.  The text is printable ASCII, and it never starts
      with a character that would end the class or change its meaning
      (']', '^', '-'). */
  function CCChar(r: Codepoint): (s: string)
    ensures 1 <= |s| && s[0] != ']' && s[0] != '^' && s[0] != '-'
  {
    if 0x20 <= r <= 0x7E then
      (if ClassMeta(r as char) then "\\" else "") + [r as char]
    else if r == 0x0D then "\\r"
    else if r == 0x09 then "\\t"
    else if r == 0x0A then "\\n"
    else if r == 0x0C then "\\f"
    else if r < 0x100 then "\\x" + Format.Hex2(r)
    else "\\x{" + Format.Hex(r) + "}"
  }

  /** AppendCCRange (tostring.cc:372-380): nothing for an empty range, one
      character for a single rune, "lo-hi" otherwise. */
  function CCRange(lo: Codepoint, hi: Codepoint): (s: string)
    ensures lo > hi <==> s == []
    ensures lo <= hi ==> s[0] != ']' && s[0] != '^' && s[0] != '-'
  {
    if lo > hi then ""
    else if lo < hi then CCChar(lo) + "-" + CCChar(hi)
    else CCChar(lo)
  }

  /** The ranges of a class, in order, one after another. */
  function RangesText(rs: seq<RuneRange>): string
  {
    if rs == [] then "" else CCRange(rs[0].lo, rs[0].hi) + RangesText(rs[1..])
  }

  /** AppendLiteral (tostring.cc:160-173): a literal rune outside a class.
      Metacharacters get a backslash, a case-folded lower-case letter
      becomes the class of both cases, anything else is written as in a
      class. */
  function LiteralText(r: Codepoint, foldCase: bool): (s: string)
    ensures 1 <= |s|
  {
    if r != 0 && r < 0x80 && LiteralMeta(r as char) then ['\\', r as char]
    else if foldCase && 'a' as int <= r <= 'z' as int then
      ['[', (r - ('a' as int - 'A' as int)) as char, r as char, ']']
    else CCRange(r, r)
  }

  /** The runes of a literal string, one after another. */
  function LiteralsText(rs: seq<Codepoint>, foldCase: bool): string
  {
    if rs == [] then "" else LiteralText(rs[0], foldCase) + LiteralsText(rs[1..], foldCase)
  }

  /** A character class (tostring.cc:296-315).  An empty class reads as
      NoMatch; a class holding U+FFFE without being full is shown negated,
      through the ranges of its negation. */
  function ClassText(cc: CharClass): string
  {
    if Size(cc) == 0 then NoMatchText
    else if Contains(cc, 0xFFFE) && !Full(cc) then "[^" + RangesText(cc.negation) + "]"
    else "[" + RangesText(cc.ranges) + "]"
  }

  // ---------------------------------------------------------------------
  // The text of a tree.

  /** "(?:s)" when the context binds more tightly than the operator. */
  function Group(wrap: bool, s: string): string
  {
    if wrap then "(?:" + s + ")" else s
  }

  function Lazy(nonGreedy: bool): string
  {
    if nonGreedy then "?" else ""
  }

  /** The counted-repetition suffix (tostring.cc:249-254). */
  function RepeatSuffix(min: int, max: int): string
  {
    if max == -1 then "{" + Format.Decimal(min) + ",}"
    else if min == max then "{" + Format.Decimal(min) + "}"
    else "{" + Format.Decimal(min) + "," + Format.Decimal(max) + "}"
  }

  /** The repetition operator itself (tostring.cc:224-254). */
  function Operator(re: Regexp): string
    requires IsRepetition(re)
  {
    match re
    case Star(_, _) => "*"
    case Plus(_, _) => "+"
    case Quest(_, _) => "?"
    case Repeat(_, min, max, _) => RepeatSuffix(min, max)
  }

  /** What follows the operand of a repetition: the operator, then "?" when
      it is non-greedy. */
  function Suffix(re: Regexp): string
    requires IsRepetition(re)
  {
    Operator(re) + Lazy(re.nonGreedy)
  }

  function NameTag(name: Option<string>): string
  {
    match name
    case None => ""
    case Some(n) => "?P<" + n + ">"
  }

  /** The operators without sub-expressions that print as one token. */
  predicate IsAtom(re: Regexp)
  {
    !(re.LiteralString? || re.Concat? || re.Alternate? || IsRepetition(re) || re.Capture?)
  }

  /** The text of an operator without sub-expressions. */
  function AtomText(re: Regexp, prec: int): string
    requires IsAtom(re)
  {
    match re
    case NoMatch => NoMatchText
    case EmptyMatch => if prec < PrecEmpty then "(?:)" else ""
    case Literal(r, fold) => LiteralText(r, fold)
    case AnyChar => "."
    case AnyByte => "\\C"
    case BeginLine => "^"
    case EndLine => "$"
    case BeginText => "(?-m:^)"
    case EndText(wasDollar) => if wasDollar then "(?-m:$)" else "\\z"
    case WordBoundary => "\\b"
    case NoWordBoundary => "\\B"
    case Class(cc) => ClassText(cc)
    case HaveMatch(id) => "(?HaveMatch:" + Format.Decimal(id) + ")"
  }

  function Concatenation(parts: seq<string>): string
  {
    if parts == [] then "" else Concatenation(parts[..|parts| - 1]) + parts[|parts| - 1]
  }

  function Join(parts: seq<string>, sep: string): string
  {
    if |parts| <= 1 then Concatenation(parts)
    else Join(parts[..|parts| - 1], sep) + sep + parts[|parts| - 1]
  }

  /** The text of re in a context of precedence prec.  Concatenations and
      literal strings are parenthesised below PrecConcat, alternations
      below PrecAlternate, repetitions below PrecUnary; the operand of a
      repetition is printed at PrecAtom, so that two repetition operators
      never follow each other. */
  function Shown(re: Regexp, prec: int): string
    decreases re, 2
  {
    match re
    case LiteralString(rs, fold) => Group(prec < PrecConcat, LiteralsText(rs, fold))
    case Concat(_) => Group(prec < PrecConcat, Inner(re))
    case Alternate(_) => Group(prec < PrecAlternate, Inner(re))
    case Star(_, _) => Group(prec < PrecUnary, Inner(re) + Suffix(re))
    case Plus(_, _) => Group(prec < PrecUnary, Inner(re) + Suffix(re))
    case Quest(_, _) => Group(prec < PrecUnary, Inner(re) + Suffix(re))
    case Repeat(_, _, _, _) => Group(prec < PrecUnary, Inner(re) + Suffix(re))
    case Capture(_, _, name) => "(" + NameTag(name) + Inner(re) + ")"
    case _ => AtomText(re, prec)
  }

  /** The text of the sub-expressions of re: the children of a
      concatenation one after another, the branches of an alternation
      separated by '|', the operand of a repetition at PrecAtom, the body of
      a capture at PrecParen.  It is also what the walk leaves in the buffer
      between the two visits of re (for an alternation, once PostVisit has
      dropped the last '|'). */
  function Inner(re: Regexp): string
    decreases re, 1
  {
    match re
    case Concat(_) => Concatenation(ChildrenShown(re, PrecConcat))
    case Alternate(_) => Join(ChildrenShown(re, PrecAlternate), "|")
    case Star(sub, _) => Shown(sub, PrecAtom)
    case Plus(sub, _) => Shown(sub, PrecAtom)
    case Quest(sub, _) => Shown(sub, PrecAtom)
    case Repeat(sub, _, _, _) => Shown(sub, PrecAtom)
    case Capture(sub, _, _) => Shown(sub, PrecParen)
    case _ => ""
  }

  /** The texts of the children of a concatenation or alternation, each at
      precedence prec. */
  function ChildrenShown(re: Regexp, prec: int): seq<string>
    requires re.Concat? || re.Alternate?
    decreases re, 0
  {
    seq(|re.subs|, i requires 0 <= i < |re.subs| => Shown(re.subs[i], prec))
  }

  /** Every branch of an alternation is followed by the '|' its parent
      expects (tostring.cc:329-331). */
  function Bar(prec: int): string
  {
    if prec == PrecAlternate then "|" else ""
  }

  /** What the walker appends for re visited in context prec. */
  function Text(re: Regexp, prec: int): string
  {
    Shown(re, prec) + Bar(prec)
  }

  // ---------------------------------------------------------------------
  // The walker's two visits.

  /** Whether the visits put "(?:" ... ")" around re in context prec. */
  predicate Wrapped(re: Regexp, prec: int)
  {
    ((re.Concat? || re.LiteralString?) && prec < PrecConcat)
    || (re.Alternate? && prec < PrecAlternate)
    || (IsRepetition(re) && prec < PrecUnary)
  }

  /** The context precedence PreVisit hands to the children of re. */
  function ChildPrec(re: Regexp): int
  {
    if re.Concat? || re.LiteralString? then PrecConcat
    else if re.Alternate? then PrecAlternate
    else if re.Capture? then PrecParen
    else PrecAtom
  }

  /** What PreVisit appends: a capture's opening parenthesis and name, or
      "(?:" for a group (a capture is never wrapped). */
  function Opening(re: Regexp, prec: int): string
  {
    if re.Capture? then "(" + NameTag(re.name)
    else if Wrapped(re, prec) then "(?:"
    else ""
  }

  /** What PostVisit writes for re itself: the whole text of an operator
      without sub-expressions, the runes of a literal string, the suffix of
      a repetition. */
  function Tail(re: Regexp, prec: int): string
  {
    if IsAtom(re) then AtomText(re, prec)
    else if re.LiteralString? then LiteralsText(re.runes, re.foldCase)
    else if IsRepetition(re) then Suffix(re)
    else ""
  }

  /** The closing parenthesis of a capture or of a group PreVisit opened. */
  function Close(re: Regexp, prec: int): string
  {
    if re.Capture? || Wrapped(re, prec) then ")" else ""
  }

  /** What PostVisit appends, before the '|' for an alternation parent. */
  function Closing(re: Regexp, prec: int): string
  {
    Tail(re, prec) + Close(re, prec)
  }

  /** The buffer after PostVisit of an alternation dropped the '|' of its
      last branch (the C++ code logs an error and leaves the buffer alone
      when the last character is something else). */
  function DropBar(t: string): string
    requires |t| > 0
  {
    if t[|t| - 1] == '|' then t[..|t| - 1] else t
  }

  /** Branches each followed by '|', one after another. */
  function Barred(parts: seq<string>): string
  {
    if parts == [] then "" else Barred(parts[..|parts| - 1]) + (parts[|parts| - 1] + "|")
  }

  class ToStringWalker {
    /** The caller's string the walker appends to. */
    var t: string

    constructor(initial: string)
      ensures t == initial
    {
      t := initial;
    }

    method AppendCCChar(r: Codepoint)
      modifies this
      ensures t == old(t) + CCChar(r)
    {
      if 0x20 <= r <= 0x7E {
        if ClassMeta(r as char) {
          t := t + "\\";
        }
        t := t + [r as char];
        return;
      }
      if r == 0x0D {
        t := t + "\\r";
        return;
      } else if r == 0x09 {
        t := t + "\\t";
        return;
      } else if r == 0x0A {
        t := t + "\\n";
        return;
      } else if r == 0x0C {
        t := t + "\\f";
        return;
      }
      if r < 0x100 {
        t := t + "\\x" + Format.Hex2(r);
        return;
      }
      t := t + "\\x{" + Format.Hex(r) + "}";
    }

    method AppendCCRange(lo: Codepoint, hi: Codepoint)
      modifies this
      ensures t == old(t) + CCRange(lo, hi)
    {
      if lo > hi {
        return;
      }
      ghost var t0 := t;
      AppendCCChar(lo);
      if lo < hi {
        t := t + "-";
        AppendCCChar(hi);
        Append3(t0, CCChar(lo), "-", CCChar(hi));
      }
    }

    method AppendLiteral(r: Codepoint, foldCase: bool)
      modifies this
      ensures t == old(t) + LiteralText(r, foldCase)
    {
      if r != 0 && r < 0x80 && LiteralMeta(r as char) {
        t := t + ['\\'];
        t := t + [r as char];
      } else if foldCase && 'a' as int <= r <= 'z' as int {
        var upper := r - ('a' as int - 'A' as int);
        t := t + ['['];
        t := t + [upper as char];
        t := t + [(upper + ('a' as int - 'A' as int)) as char];
        t := t + [']'];
      } else {
        AppendCCRange(r, r);
      }
    }

    /** PreVisit (tostring.cc:99-158): opens a group or a capture and
        returns the precedence for the children. */
    method PreVisit(re: Regexp, prec: int) returns (nprec: int)
      modifies this
      ensures nprec == ChildPrec(re)
      ensures t == old(t) + Opening(re, prec)
    {
      nprec := PrecAtom;
      match re {
        case Concat(_) =>
          if prec < PrecConcat {
            t := t + "(?:";
          }
          nprec := PrecConcat;
        case LiteralString(_, _) =>
          if prec < PrecConcat {
            t := t + "(?:";
          }
          nprec := PrecConcat;
        case Alternate(_) =>
          if prec < PrecAlternate {
            t := t + "(?:";
          }
          nprec := PrecAlternate;
        case Capture(_, _, name) =>
          ghost var t0 := t;
          t := t + "(";
          if name.Some? {
            t := t + "?P<";
            t := t + name.value;
            t := t + ">";
            Append3(t0 + "(", "?P<", name.value, ">");
          }
          Append2(t0, "(", NameTag(name));
          nprec := PrecParen;
        case Star(_, _) =>
          if prec < PrecUnary {
            t := t + "(?:";
          }
        case Plus(_, _) =>
          if prec < PrecUnary {
            t := t + "(?:";
          }
        case Quest(_, _) =>
          if prec < PrecUnary {
            t := t + "(?:";
          }
        case Repeat(_, _, _, _) =>
          if prec < PrecUnary {
            t := t + "(?:";
          }
        case _ =>
      }
    }

    /** The kRegexpLiteralString case of PostVisit (tostring.cc:200-203):
        each rune in turn. */
    method AppendLiterals(rs: seq<Codepoint>, foldCase: bool)
      modifies this
      ensures t == old(t) + LiteralsText(rs, foldCase)
    {
      ghost var t0 := t;
      for i := 0 to |rs|
        invariant t == t0 + LiteralsText(rs[..i], foldCase)
      {
        AppendLiteral(rs[i], foldCase);
        LiteralsStep(t0, rs, i, foldCase);
      }
      assert rs[..|rs|] == rs;
    }

    /** The kRegexpCharClass case of PostVisit (tostring.cc:296-315). */
    method AppendClass(cc: CharClass)
      modifies this
      ensures t == old(t) + ClassText(cc)
    {
      if Size(cc) == 0 {
        t := t + NoMatchText;
        return;
      }
      ghost var t0 := t;
      t := t + "[";
      var ranges := cc.ranges;
      ghost var open := "[";
      if Contains(cc, 0xFFFE) && !Full(cc) {
        ranges := cc.negation;
        t := t + "^";
        open := "[^";
      }
      assert t == t0 + open;
      for i := 0 to |ranges|
        invariant t == t0 + open + RangesText(ranges[..i])
      {
        AppendCCRange(ranges[i].lo, ranges[i].hi);
        RangesStep(t0 + open, ranges, i);
      }
      assert ranges[..|ranges|] == ranges;
      t := t + "]";
      Append3(t0, open, RangesText(ranges), "]");
    }

    /** The repetition cases of PostVisit (tostring.cc:224-256), up to the
        closing parenthesis. */
    method AppendSuffix(re: Regexp)
      requires IsRepetition(re)
      modifies this
      ensures t == old(t) + Suffix(re)
    {
      ghost var t0 := t;
      match re {
        case Star(_, _) =>
          t := t + "*";
        case Plus(_, _) =>
          t := t + "+";
        case Quest(_, _) =>
          t := t + "?";
        case Repeat(_, min, max, _) =>
          if max == -1 {
            t := t + ("{" + Format.Decimal(min) + ",}");
          } else if min == max {
            t := t + ("{" + Format.Decimal(min) + "}");
          } else {
            t := t + ("{" + Format.Decimal(min) + "," + Format.Decimal(max) + "}");
          }
      }
      assert t == t0 + Operator(re);
      if re.nonGreedy {
        t := t + "?";
      }
      Append2(t0, Operator(re), Lazy(re.nonGreedy));
    }

    /** The cases of PostVisit for operators without sub-expressions
        (tostring.cc:182-198, 261-299, 321-326). */
    method AppendAtom(re: Regexp, prec: int)
      requires IsAtom(re)
      modifies this
      ensures t == old(t) + AtomText(re, prec)
    {
      match re {
        case NoMatch =>
          t := t + NoMatchText;
        case EmptyMatch =>
          if prec < PrecEmpty {
            t := t + "(?:)";
          }
        case Literal(r, fold) =>
          AppendLiteral(r, fold);
        case AnyChar =>
          t := t + ".";
        case AnyByte =>
          t := t + "\\C";
        case BeginLine =>
          t := t + "^";
        case EndLine =>
          t := t + "$";
        case BeginText =>
          t := t + "(?-m:^)";
        case EndText(wasDollar) =>
          if wasDollar {
            t := t + "(?-m:$)";
          } else {
            t := t + "\\z";
          }
        case WordBoundary =>
          t := t + "\\b";
        case NoWordBoundary =>
          t := t + "\\B";
        case Class(cc) =>
          AppendClass(cc);
        case HaveMatch(id) =>
          t := t + ("(?HaveMatch:" + Format.Decimal(id) + ")");
      }
    }

    /** PostVisit (tostring.cc:178-334): writes an operator without
        sub-expressions, or the suffix and closing parenthesis of one with
        sub-expressions, then the '|' an alternation parent expects.  For an
        alternation it first drops the '|' its last branch appended. */
    method PostVisit(re: Regexp, prec: int)
      requires re.Alternate? ==> |t| > 0
      modifies this
      ensures t == (if re.Alternate? then DropBar(old(t)) else old(t)) + Closing(re, prec) + Bar(prec)
    {
      if re.Alternate? {
        DropTrailingBar();
      }
      ghost var base := t;
      AppendTail(re, prec);
      if re.Capture? || Wrapped(re, prec) {
        t := t + ")";
      }
      Append2(base, Tail(re, prec), Close(re, prec));
      if prec == PrecAlternate {
        t := t + "|";
      }
    }

    /** The kRegexpAlternate case of PostVisit (tostring.cc:213-217): the
        last branch's '|' is removed. */
    method DropTrailingBar()
      requires |t| > 0
      modifies this
      ensures t == DropBar(old(t))
    {
      if t[|t| - 1] == '|' {
        t := t[..|t| - 1];
      }
    }

    /** What PostVisit writes for re itself, before any closing
        parenthesis. */
    method AppendTail(re: Regexp, prec: int)
      modifies this
      ensures t == old(t) + Tail(re, prec)
    {
      if IsAtom(re) {
        AppendAtom(re, prec);
      } else if re.LiteralString? {
        AppendLiterals(re.runes, re.foldCase);
      } else if IsRepetition(re) {
        AppendSuffix(re);
      }
    }

    /** The walk (Walker::WalkExponential without its visit budget):
        PreVisit, the children in order at the precedence PreVisit
        returned, then PostVisit.  It appends exactly the text of re. */
    method Walk(re: Regexp, prec: int)
      requires WellFormed(re)
      modifies this
      ensures t == old(t) + Text(re, prec)
      decreases re, 2
    {
      ghost var t0 := t;
      var nprec := PreVisit(re, prec);
      ghost var t1 := t;
      WalkChildren(re, nprec);
      if re.Alternate? {
        DropLastBar(t1 + Inner(re));
      }
      PostVisit(re, prec);
      ShownSplit(re, prec);
      Regroup(t0, Opening(re, prec), Inner(re), Closing(re, prec), Bar(prec));
    }

    /** The children of re walked in order at precedence nprec: the text of
        the sub-expressions, and for an alternation the '|' its last branch
        left behind. */
    method WalkChildren(re: Regexp, nprec: int)
      requires WellFormed(re) && nprec == ChildPrec(re)
      modifies this
      ensures re.Alternate? ==> t == old(t) + Inner(re) + "|"
      ensures !re.Alternate? ==> t == old(t) + Inner(re)
      decreases re, 1
    {
      match re {
        case Concat(subs) =>
          WalkConcat(re);
        case Alternate(subs) =>
          WalkAlternation(re);
        case Star(sub, _) =>
          Walk(sub, nprec);
        case Plus(sub, _) =>
          Walk(sub, nprec);
        case Quest(sub, _) =>
          Walk(sub, nprec);
        case Repeat(sub, _, _, _) =>
          Walk(sub, nprec);
        case Capture(sub, _, _) =>
          Walk(sub, nprec);
        case _ =>
      }
    }

    /** The children of a concatenation, one after another. */
    method WalkConcat(re: Regexp)
      requires re.Concat? && WellFormed(re)
      modifies this
      ensures t == old(t) + Inner(re)
      decreases re, 0
    {
      ghost var t1 := t;
      ghost var texts := ChildrenShown(re, PrecConcat);
      for i := 0 to |re.subs|
        invariant t == t1 + Concatenation(texts[..i])
      {
        Walk(re.subs[i], PrecConcat);
        ConcatenationStep(t1, texts, i);
      }
      assert texts[..|re.subs|] == texts;
    }

    /** The branches of an alternation, each followed by '|'. */
    method WalkAlternation(re: Regexp)
      requires re.Alternate? && WellFormed(re)
      modifies this
      ensures t == old(t) + Inner(re) + "|"
      decreases re, 0
    {
      ghost var t1 := t;
      ghost var texts := ChildrenShown(re, PrecAlternate);
      for i := 0 to |re.subs|
        invariant t == t1 + Barred(texts[..i])
      {
        Walk(re.subs[i], PrecAlternate);
        BarredStep(t1, texts, i);
      }
      assert texts[..|re.subs|] == texts;
      BarredJoin(texts);
      Append2(t1, Inner(re), "|");
    }
  }

  /** Regexp::ToString (tostring.cc:63-93, without the "[truncated]" marker
      of an exhausted visit budget): the text of the whole tree at top-level
      precedence. */
  method RegexpToString(re: Regexp) returns (s: string)
    requires WellFormed(re)
    ensures s == Shown(re, PrecToplevel)
  {
    var w := new ToStringWalker("");
    w.Walk(re, PrecToplevel);
    s := w.t;
  }

  // ---------------------------------------------------------------------
  // Lemmas.

  lemma {:induction false} Append2(t: string, a: string, b: string)
    ensures t + a + b == t + (a + b)
  {
  }

  lemma {:induction false} Append3(t: string, a: string, b: string, c: string)
    ensures t + a + b + c == t + (a + b + c)
  {
  }

  lemma {:induction false} Regroup(t: string, a: string, b: string, c: string, d: string)
    ensures t + a + b + c + d == t + (a + b + c + d)
  {
  }

  lemma {:induction false} DropLastBar(s: string)
    ensures DropBar(s + "|") == s
  {
    assert (s + "|")[..|s|] == s;
  }

  /** The visits and the children's text put together are the text of the
      tree: what PreVisit opens, the children, what PostVisit closes. */
  lemma {:induction false} ShownSplit(re: Regexp, prec: int)
    ensures Opening(re, prec) + Inner(re) + Closing(re, prec) == Shown(re, prec)
  {
    if IsAtom(re) {
      AtomSplit(re, prec);
    } else if re.Capture? {
      CaptureSplit(re, prec);
    } else if re.LiteralString? {
      LiteralStringSplit(re, prec);
    } else if re.Concat? || re.Alternate? {
      ListSplit(re, prec);
    } else {
      RepetitionSplit(re, prec);
    }
  }

  lemma {:induction false} AtomSplit(re: Regexp, prec: int)
    requires IsAtom(re)
    ensures Opening(re, prec) + Inner(re) + Closing(re, prec) == Shown(re, prec)
  {
    AtomVisits(re, prec);
    AtomShown(re, prec);
    EmptyAround(AtomText(re, prec));
  }

  lemma {:induction false} AtomVisits(re: Regexp, prec: int)
    requires IsAtom(re)
    ensures Opening(re, prec) == "" && Inner(re) == "" && Closing(re, prec) == AtomText(re, prec) + ""
  {
  }

  lemma {:induction false} AtomShown(re: Regexp, prec: int)
    requires IsAtom(re)
    ensures Shown(re, prec) == AtomText(re, prec)
  {
  }

  lemma {:induction false} EmptyAround(a: string)
    ensures "" + "" + (a + "") == a
  {
  }

  lemma {:induction false} CaptureSplit(re: Regexp, prec: int)
    requires re.Capture?
    ensures Opening(re, prec) + Inner(re) + Closing(re, prec) == Shown(re, prec)
  {
  }

  lemma {:induction false} LiteralStringSplit(re: Regexp, prec: int)
    requires re.LiteralString?
    ensures Opening(re, prec) + Inner(re) + Closing(re, prec) == Shown(re, prec)
  {
  }

  lemma {:induction false} ListSplit(re: Regexp, prec: int)
    requires re.Concat? || re.Alternate?
    ensures Opening(re, prec) + Inner(re) + Closing(re, prec) == Shown(re, prec)
  {
  }

  lemma {:induction false} RepetitionSplit(re: Regexp, prec: int)
    requires IsRepetition(re)
    ensures Opening(re, prec) + Inner(re) + Closing(re, prec) == Shown(re, prec)
  {
    RepetitionShown(re, prec);
    RepetitionVisits(re, prec);
    GroupSplit(prec < PrecUnary, Inner(re), Suffix(re));
  }

  lemma {:induction false} RepetitionShown(re: Regexp, prec: int)
    requires IsRepetition(re)
    ensures Shown(re, prec) == Group(prec < PrecUnary, Inner(re) + Suffix(re))
  {
  }

  lemma {:induction false} RepetitionVisits(re: Regexp, prec: int)
    requires IsRepetition(re)
    ensures Opening(re, prec) == (if prec < PrecUnary then "(?:" else "")
    ensures Closing(re, prec) == Suffix(re) + (if prec < PrecUnary then ")" else "")
  {
  }

  /** A group split into its opening, its contents a + b, and b followed by
      its closing. */
  lemma {:induction false} GroupSplit(w: bool, a: string, b: string)
    ensures (if w then "(?:" else "") + a + (b + (if w then ")" else "")) == Group(w, a + b)
  {
    if w {
      assert "(?:" + a + (b + ")") == "(?:" + (a + b) + ")";
    } else {
      assert "" + a + (b + "") == a + b;
    }
  }

  lemma {:induction false} LiteralsStep(t: string, rs: seq<Codepoint>, i: nat, foldCase: bool)
    requires i < |rs|
    ensures t + LiteralsText(rs[..i], foldCase) + LiteralText(rs[i], foldCase)
            == t + LiteralsText(rs[..i + 1], foldCase)
  {
    LiteralsSnoc(rs[..i], rs[i], foldCase);
    assert rs[..i + 1] == rs[..i] + [rs[i]];
    Append2(t, LiteralsText(rs[..i], foldCase), LiteralText(rs[i], foldCase));
  }

  lemma {:induction false} RangesStep(t: string, rs: seq<RuneRange>, i: nat)
    requires i < |rs|
    ensures t + RangesText(rs[..i]) + CCRange(rs[i].lo, rs[i].hi) == t + RangesText(rs[..i + 1])
  {
    RangesSnoc(rs[..i], rs[i]);
    assert rs[..i + 1] == rs[..i] + [rs[i]];
    Append2(t, RangesText(rs[..i]), CCRange(rs[i].lo, rs[i].hi));
  }

  lemma {:induction false} ConcatenationStep(t: string, parts: seq<string>, i: nat)
    requires i < |parts|
    ensures t + Concatenation(parts[..i]) + parts[i] == t + Concatenation(parts[..i + 1])
  {
    assert parts[..i + 1][..i] == parts[..i];
    Append2(t, Concatenation(parts[..i]), parts[i]);
  }

  lemma {:induction false} BarredStep(t: string, parts: seq<string>, i: nat)
    requires i < |parts|
    ensures t + Barred(parts[..i]) + (parts[i] + "|") == t + Barred(parts[..i + 1])
  {
    assert parts[..i + 1][..i] == parts[..i];
    Append2(t, Barred(parts[..i]), parts[i] + "|");
  }

  lemma {:induction false} LiteralsSnoc(rs: seq<Codepoint>, r: Codepoint, foldCase: bool)
    ensures LiteralsText(rs + [r], foldCase) == LiteralsText(rs, foldCase) + LiteralText(r, foldCase)
  {
    if rs != [] {
      assert (rs + [r])[1..] == rs[1..] + [r];
      LiteralsSnoc(rs[1..], r, foldCase);
      Append2(LiteralText(rs[0], foldCase), LiteralsText(rs[1..], foldCase), LiteralText(r, foldCase));
    }
  }

  lemma {:induction false} RangesSnoc(rs: seq<RuneRange>, x: RuneRange)
    ensures RangesText(rs + [x]) == RangesText(rs) + CCRange(x.lo, x.hi)
  {
    if rs != [] {
      assert (rs + [x])[1..] == rs[1..] + [x];
      RangesSnoc(rs[1..], x);
      Append2(CCRange(rs[0].lo, rs[0].hi), RangesText(rs[1..]), CCRange(x.lo, x.hi));
    }
  }

  /** The branches of an alternation, each followed by '|', are the
      branches joined by '|' with one '|' left over at the end: removing
      the last character leaves exactly one '|' between branches and none
      after the last. */
  lemma {:induction false} BarredJoin(parts: seq<string>)
    requires |parts| >= 1
    ensures Barred(parts) == Join(parts, "|") + "|"
    decreases |parts|
  {
    var n := |parts|;
    if n > 1 {
      BarredJoin(parts[..n - 1]);
      Append2(Join(parts[..n - 1], "|"), "|", parts[n - 1] + "|");
      Append2(Join(parts[..n - 1], "|") + "|", parts[n - 1], "|");
    } else {
      assert parts[..0] == [];
      assert Barred(parts[..0]) == "" && Concatenation(parts[..0]) == "";
    }
  }
}
