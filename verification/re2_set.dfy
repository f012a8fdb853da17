/** RE2::Set (re2/set.cc): a list of patterns that are compiled into one
    program and matched together, each match reported by the id Add gave
    its pattern.

    The parser, the set compiler and the DFA are outside this model; the
    class receives them as functions:
      - parse plays Regexp::Parse with the set's parse flags: the tree, or
        the text of the parser's status;
      - compileSet says whether Prog::CompileSet produces a program for the
        alternation within the memory budget;
      - searchDFA plays Prog::SearchDFA in kManyMatch mode: whether the text
        matched, whether the DFA ran out of memory, and the ids in the
        SparseSet, in its iteration order (asked for only when the caller
        wants them). */
module Re2Set {

  import opened Wrappers
  import opened RegexpTree

  /** RE2::Anchor. */
  datatype Anchor = Unanchored | AnchorStart | AnchorBoth

  /** RE2::Set::ErrorKind. */
  datatype ErrorKind = NoError | NotCompiled | OutOfMemory | Inconsistent

  /** The program Prog::CompileSet builds: the alternation of the elements,
      and the anchoring it was built for. */
  datatype Prog = Prog(re: Regexp, anchor: Anchor)

  /** What SearchDFA reports. */
  datatype DfaOutcome = DfaOutcome(matched: bool, failed: bool, ids: seq<int>)

  /** An element of elem_: the pattern text and its tree with the match
      marker. */
  datatype Elem = Elem(pattern: string, re: Regexp)

  // ---------------------------------------------------------------------
  // The match marker Add appends.

  /** The tree Add stores for pattern id n (set.cc:94-110): the parsed tree
      followed by HaveMatch(n).  A concatenation is extended in place of
      being nested; anything else becomes the first of two items. */
  function WithMarker(re: Regexp, n: int): Regexp
  {
    if re.Concat? then Concat(re.subs + [HaveMatch(n)])
    else Concat([re, HaveMatch(n)])
  }

  /** The id of the HaveMatch that ends a stored tree, if it ends with one. */
  function MarkerOf(re: Regexp): Option<int>
  {
    if re.Concat? && |re.subs| > 0 && re.subs[|re.subs| - 1].HaveMatch?
    then Some(re.subs[|re.subs| - 1].matchId)
    else None
  }

  /** The items before the marker. */
  function Unmarked(re: Regexp): seq<Regexp>
    requires MarkerOf(re).Some?
  {
    re.subs[..|re.subs| - 1]
  }

  /** The stored tree ends with the marker n, and what precedes it is the
      parsed tree: its items when it was a concatenation, the tree itself
      otherwise. */
  lemma {:induction false} MarkerRoundTrip(re: Regexp, n: int)
    ensures MarkerOf(WithMarker(re, n)) == Some(n)
    ensures Unmarked(WithMarker(re, n)) == if re.Concat? then re.subs else [re]
  {
    var m := WithMarker(re, n);
    if re.Concat? {
      assert m.subs[..|m.subs| - 1] == re.subs;
    } else {
      assert m.subs[..|m.subs| - 1] == [re];
    }
  }

  /** Every element carries the marker of its own position: the ids Add
      returned are dense and each element knows its own. */
  ghost predicate DenseIds(elems: seq<Elem>)
  {
    forall i :: 0 <= i < |elems| ==> MarkerOf(elems[i].re) == Some(i)
  }

  /** The markers of a list of elements, in order. */
  function Markers(elems: seq<Elem>): seq<Option<int>>
  {
    if elems == [] then [] else [MarkerOf(elems[0].re)] + Markers(elems[1..])
  }

  // ---------------------------------------------------------------------
  // The order Compile sorts by: std::string's operator<, which compares
  // characters as unsigned values.

  predicate Less(a: string, b: string)
    decreases |a|
  {
    if a == [] then b != []
    else if b == [] then false
    else if a[0] != b[0] then a[0] < b[0]
    else Less(a[1..], b[1..])
  }

  lemma {:induction false} LessIrreflexive(a: string)
    ensures !Less(a, a)
    decreases |a|
  {
    if a != [] {
      LessIrreflexive(a[1..]);
    }
  }

  lemma {:induction false} LessTransitive(a: string, b: string, c: string)
    requires Less(a, b) && Less(b, c)
    ensures Less(a, c)
    decreases |a|
  {
    if a != [] && a[0] == b[0] && b[0] == c[0] {
      LessTransitive(a[1..], b[1..], c[1..]);
    }
  }

  lemma {:induction false} LessTotal(a: string, b: string)
    requires a != b
    ensures Less(a, b) || Less(b, a)
    decreases |a|
  {
    if a != [] && b != [] && a[0] == b[0] {
      assert a == [a[0]] + a[1..] && b == [b[0]] + b[1..];
      LessTotal(a[1..], b[1..]);
    }
  }

  /** "Not less" is transitive: it is the order "at least". */
  lemma {:induction false} AtLeastTransitive(a: string, b: string, c: string)
    requires !Less(b, a) && !Less(c, b)
    ensures !Less(c, a)
  {
    if Less(c, a) {
      if a == b {
      } else if b == c {
      } else {
        LessTotal(a, b);
        LessTotal(b, c);
        LessTransitive(a, b, c);
        LessTransitive(a, c, a);
        LessIrreflexive(a);
      }
    }
  }

  /** Elements in the order Compile leaves them: no pattern is less than
      one before it. */
  ghost predicate SortedByPattern(elems: seq<Elem>)
  {
    forall i, j :: 0 <= i < j < |elems| ==> !Less(elems[j].pattern, elems[i].pattern)
  }

  /** e put before the first element whose pattern is not less than its own. */
  function Insert(e: Elem, sorted: seq<Elem>): (r: seq<Elem>)
    ensures |r| == |sorted| + 1
  {
    if sorted == [] || !Less(sorted[0].pattern, e.pattern) then [e] + sorted
    else [sorted[0]] + Insert(e, sorted[1..])
  }

  /** The order of std::sort in Compile.  std::sort is not stable: among
      elements with equal patterns it may produce any order, and this is one
      of them. */
  function SortByPattern(elems: seq<Elem>): (r: seq<Elem>)
    ensures |r| == |elems|
  {
    if elems == [] then [] else Insert(elems[0], SortByPattern(elems[1..]))
  }

  lemma {:induction false} InsertPermutes(e: Elem, sorted: seq<Elem>)
    ensures multiset(Insert(e, sorted)) == multiset(sorted) + multiset{e}
  {
    if sorted != [] && Less(sorted[0].pattern, e.pattern) {
      InsertPermutes(e, sorted[1..]);
      assert sorted == [sorted[0]] + sorted[1..];
    }
  }

  lemma {:induction false} InsertSorted(e: Elem, sorted: seq<Elem>)
    requires SortedByPattern(sorted)
    ensures SortedByPattern(Insert(e, sorted))
  {
    if sorted == [] {
    } else if !Less(sorted[0].pattern, e.pattern) {
      InsertFront(e, sorted);
    } else {
      InsertSorted(e, sorted[1..]);
      InsertBehind(e, sorted, Insert(e, sorted[1..]));
    }
  }

  /** e goes first when no pattern of the list is less than its own. */
  lemma {:induction false} InsertFront(e: Elem, sorted: seq<Elem>)
    requires SortedByPattern(sorted) && sorted != [] && !Less(sorted[0].pattern, e.pattern)
    ensures SortedByPattern([e] + sorted)
  {
    var r := [e] + sorted;
    forall i, j | 0 <= i < j < |r| ensures !Less(r[j].pattern, r[i].pattern) {
      if i == 0 {
        assert r[j] == sorted[j - 1];
        if j > 1 {
          AtLeastTransitive(e.pattern, sorted[0].pattern, sorted[j - 1].pattern);
        }
      } else {
        assert r[i] == sorted[i - 1] && r[j] == sorted[j - 1];
      }
    }
  }

  /** e goes behind the first element when that element's pattern is less
      than its own. */
  lemma {:induction false} InsertBehind(e: Elem, sorted: seq<Elem>, tail: seq<Elem>)
    requires SortedByPattern(sorted) && sorted != [] && Less(sorted[0].pattern, e.pattern)
    requires tail == Insert(e, sorted[1..]) && SortedByPattern(tail)
    ensures SortedByPattern([sorted[0]] + tail)
  {
    var r := [sorted[0]] + tail;
    InsertPermutes(e, sorted[1..]);
    forall j | 0 < j < |r| ensures !Less(r[j].pattern, sorted[0].pattern) {
      assert r[j] == tail[j - 1];
      assert r[j] in multiset(sorted[1..]) + multiset{e};
      if r[j] == e {
        if Less(e.pattern, sorted[0].pattern) {
          LessTransitive(e.pattern, sorted[0].pattern, e.pattern);
          LessIrreflexive(e.pattern);
        }
      } else {
        assert r[j] in sorted[1..];
        var k :| 0 <= k < |sorted[1..]| && sorted[1..][k] == r[j];
        assert sorted[k + 1] == r[j];
      }
    }
    forall i, j | 0 <= i < j < |r| ensures !Less(r[j].pattern, r[i].pattern) {
      if i > 0 {
        assert r[i] == tail[i - 1] && r[j] == tail[j - 1];
      }
    }
  }

  /** Compile's sort orders the elements by pattern and keeps every
      element: the result is a permutation. */
  lemma {:induction false} SortByPatternCorrect(elems: seq<Elem>)
    ensures SortedByPattern(SortByPattern(elems))
    ensures multiset(SortByPattern(elems)) == multiset(elems)
  {
    SortSorted(elems);
    SortPermutes(elems);
  }

  lemma {:induction false} SortSorted(elems: seq<Elem>)
    ensures SortedByPattern(SortByPattern(elems))
  {
    if elems != [] {
      SortSorted(elems[1..]);
      InsertSorted(elems[0], SortByPattern(elems[1..]));
    }
  }

  lemma {:induction false} SortPermutes(elems: seq<Elem>)
    ensures multiset(SortByPattern(elems)) == multiset(elems)
  {
    if elems != [] {
      SortPermutes(elems[1..]);
      InsertPermutes(elems[0], SortByPattern(elems[1..]));
      assert elems == [elems[0]] + elems[1..];
    }
  }

  /** Sorting does not change which ids the elements carry: every id Add
      returned is still the marker of exactly as many arms as before. */
  lemma {:induction false} SortKeepsIds(elems: seq<Elem>, n: int)
    ensures multiset(Markers(SortByPattern(elems)))[Some(n)] == multiset(Markers(elems))[Some(n)]
  {
    SortByPatternCorrect(elems);
    MarkersOfPermutation(elems, SortByPattern(elems));
  }

  lemma {:induction false} MarkersOfPermutation(a: seq<Elem>, b: seq<Elem>)
    requires multiset(a) == multiset(b)
    ensures multiset(Markers(a)) == multiset(Markers(b))
    decreases |a|
  {
    if a == [] {
      assert |b| == |multiset(b)| == 0;
    } else {
      assert a[0] in multiset(b);
      var k :| 0 <= k < |b| && b[k] == a[0];
      var b' := b[..k] + b[k + 1..];
      RemoveOne(a, b, k);
      MarkersOfPermutation(a[1..], b');
      MarkersRemove(b, k);
      MarkersRemove(a, 0);
      assert a[..0] + a[1..] == a[1..];
    }
  }

  /** Taking the first element off a list and an equal element off a
      permutation of it leaves permutations. */
  lemma {:induction false} RemoveOne(a: seq<Elem>, b: seq<Elem>, k: nat)
    requires multiset(a) == multiset(b) && a != [] && k < |b| && b[k] == a[0]
    ensures multiset(a[1..]) == multiset(b[..k] + b[k + 1..])
  {
    assert a == [a[0]] + a[1..];
    assert b == b[..k] + [b[k]] + b[k + 1..];
    calc {
      multiset(a[1..]);
      multiset(a) - multiset{a[0]};
      multiset(b) - multiset{b[k]};
      multiset(b[..k]) + multiset(b[k + 1..]);
      multiset(b[..k] + b[k + 1..]);
    }
  }

  /** The markers of a list are those of the list without element k, and
      the marker of element k. */
  lemma {:induction false} MarkersRemove(b: seq<Elem>, k: nat)
    requires k < |b|
    ensures multiset(Markers(b)) == multiset(Markers(b[..k] + b[k + 1..])) + multiset{MarkerOf(b[k].re)}
  {
    assert b == b[..k] + ([b[k]] + b[k + 1..]);
    MarkersSplit(b[..k], [b[k]] + b[k + 1..]);
    MarkersSplit([b[k]], b[k + 1..]);
    MarkersSplit(b[..k], b[k + 1..]);
    assert Markers([b[k]]) == [MarkerOf(b[k].re)];
  }

  lemma {:induction false} MarkersSplit(a: seq<Elem>, b: seq<Elem>)
    ensures Markers(a + b) == Markers(a) + Markers(b)
    decreases |a|
  {
    if a != [] {
      assert (a + b)[0] == a[0] && (a + b)[1..] == a[1..] + b;
      MarkersSplit(a[1..], b);
      calc {
        Markers(a + b);
        [MarkerOf(a[0].re)] + Markers(a[1..] + b);
        [MarkerOf(a[0].re)] + (Markers(a[1..]) + Markers(b));
        ([MarkerOf(a[0].re)] + Markers(a[1..])) + Markers(b);
      }
    } else {
      assert a + b == b;
    }
  }

  /** In a list with dense ids, id n is the marker of exactly one element
      when it is below the length, and of none otherwise. */
  lemma {:induction false} DenseIdsCount(elems: seq<Elem>, n: int)
    requires DenseIds(elems)
    ensures multiset(Markers(elems))[Some(n)] == if 0 <= n < |elems| then 1 else 0
    decreases |elems|
  {
    if elems != [] {
      var init := elems[..|elems| - 1];
      assert DenseIds(init) by {
        forall i | 0 <= i < |init| ensures MarkerOf(init[i].re) == Some(i) {
          assert init[i] == elems[i];
        }
      }
      DenseIdsCount(init, n);
      assert elems == init + [elems[|elems| - 1]];
      MarkersSplit(init, [elems[|elems| - 1]]);
    }
  }

  /** The ids of a compiled set: after sorting, each id 0..size-1 is
      carried by exactly one arm of the alternation, and no other id is. */
  lemma {:induction false} CompiledIds(elems: seq<Elem>, n: int)
    requires DenseIds(elems)
    ensures multiset(Markers(SortByPattern(elems)))[Some(n)] == if 0 <= n < |elems| then 1 else 0
  {
    SortKeepsIds(elems, n);
    DenseIdsCount(elems, n);
  }

  /** The trees of the elements, in order: the arms of the alternation. */
  function Arms(elems: seq<Elem>): seq<Regexp>
  {
    seq(|elems|, i requires 0 <= i < |elems| => elems[i].re)
  }

  // ---------------------------------------------------------------------
  // The set.

  class Set {
    const anchor: Anchor
    const parse: string -> Result<Regexp, string>
    const compileSet: (Regexp, Anchor) -> bool
    const searchDFA: (Prog, string, bool) -> DfaOutcome

    var elem: seq<Elem>
    var compiled: bool
    var size: int
    var prog: Option<Prog>

    /** Before Compile the elements carry dense ids and there is no
        program; after it the list is empty and size holds the count. */
    ghost predicate Valid()
      reads this
    {
      && (!compiled ==> size == 0 && prog == None && DenseIds(elem))
      && (compiled ==> elem == [] && size >= 0)
    }

    /** RE2::Set::Set (set.cc:43-49). */
    constructor(anchor: Anchor, parse: string -> Result<Regexp, string>,
                compileSet: (Regexp, Anchor) -> bool, searchDFA: (Prog, string, bool) -> DfaOutcome)
      ensures Valid()
      ensures this.anchor == anchor && this.parse == parse
      ensures this.compileSet == compileSet && this.searchDFA == searchDFA
      ensures elem == [] && !compiled && size == 0 && prog == None
    {
      this.anchor := anchor;
      this.parse := parse;
      this.compileSet := compileSet;
      this.searchDFA := searchDFA;
      elem := [];
      compiled := false;
      size := 0;
      prog := None;
    }

    /** The move constructor (set.cc:56-68): this set takes over other's
        state, and other is left empty and not compiled. */
    constructor Moved(other: Set)
      requires other.Valid()
      modifies other
      ensures Valid() && other.Valid()
      ensures anchor == other.anchor && parse == other.parse
      ensures compileSet == other.compileSet && searchDFA == other.searchDFA
      ensures elem == old(other.elem) && compiled == old(other.compiled)
      ensures size == old(other.size) && prog == old(other.prog)
      ensures other.elem == [] && !other.compiled && other.size == 0 && other.prog == None
    {
      anchor := other.anchor;
      parse := other.parse;
      compileSet := other.compileSet;
      searchDFA := other.searchDFA;
      elem := other.elem;
      compiled := other.compiled;
      size := other.size;
      prog := other.prog;
      new;
      other.elem := [];
      other.compiled := false;
      other.size := 0;
      other.prog := None;
    }

    /** RE2::Set::Add (set.cc:76-113): the id of the new pattern, or -1
        after Compile or when the pattern does not parse.  error is what is
        stored through the error pointer: the parser's status text on a
        parse failure, nothing otherwise. */
    method Add(pattern: string) returns (n: int, error: Option<string>)
      requires Valid()
      modifies this
      ensures Valid()
      ensures old(compiled) ==> n == -1 && error == None && unchanged(this)
      ensures !old(compiled) && parse(pattern).Failure? ==>
                n == -1 && error == Some(parse(pattern).error) && unchanged(this)
      ensures !old(compiled) && parse(pattern).Success? ==>
                && n == |old(elem)| && error == None
                && elem == old(elem) + [Elem(pattern, WithMarker(parse(pattern).value, n))]
                && compiled == old(compiled) && size == old(size) && prog == old(prog)
    {
      error := None;
      if compiled {
        return -1, None;
      }
      var status := parse(pattern);
      if status.Failure? {
        return -1, Some(status.error);
      }
      n := |elem|;
      var re := WithMarker(status.value, n);
      MarkerRoundTrip(status.value, n);
      elem := elem + [Elem(pattern, re)];
    }

    /** RE2::Set::Compile (set.cc:115-143): runs once.  It records the
        number of patterns, sorts the elements by pattern, hands the
        alternation of their trees to the set compiler, empties the element
        list and reports whether a program was built. */
    method Compile() returns (ok: bool)
      requires Valid()
      modifies this
      ensures Valid()
      ensures old(compiled) ==> !ok && unchanged(this)
      ensures !old(compiled) ==>
                var alt := Alternate(Arms(SortByPattern(old(elem))));
                && compiled && size == |old(elem)| && elem == []
                && prog == (if compileSet(alt, anchor) then Some(Prog(alt, anchor)) else None)
                && ok == prog.Some?
    {
      if compiled {
        return false;
      }
      compiled := true;
      size := |elem|;
      elem := SortByPattern(elem);
      var sub: seq<Regexp> := [];
      for i := 0 to size
        invariant |sub| == i
        invariant forall j :: 0 <= j < i ==> sub[j] == elem[j].re
      {
        sub := sub + [elem[i].re];
      }
      assert sub == Arms(elem);
      elem := [];
      var re := Alternate(sub);
      prog := if compileSet(re, anchor) then Some(Prog(re, anchor)) else None;
      ok := prog.Some?;
    }

    /** RE2::Set::Match (set.cc:183-258), without the auxiliary socket
        read.  v is the caller's vector, None for a null pointer: it is
        cleared before the search and filled from the DFA's set of ids only
        on a consistent match.  The result and the kind stored through
        error_info follow the table of the five outcomes.  A set whose
        Compile failed has no program, which the C++ code dereferences. */
    method Match(text: string, v: Option<seq<int>>) returns (matched: bool, v': Option<seq<int>>, kind: ErrorKind)
      requires compiled ==> prog.Some?
      ensures !compiled ==> !matched && kind == NotCompiled && v' == v
      ensures compiled ==>
                var o := searchDFA(prog.value, text, v.Some?);
                var cleared := if v.Some? then Some([]) else None;
                && (o.failed ==> !matched && kind == OutOfMemory && v' == cleared)
                && (!o.failed && !o.matched ==> !matched && kind == NoError && v' == cleared)
                && (!o.failed && o.matched && v.Some? && o.ids == [] ==>
                      !matched && kind == Inconsistent && v' == Some([]))
                && (!o.failed && o.matched && (v.None? || o.ids != []) ==>
                      matched && kind == NoError && v' == if v.Some? then Some(o.ids) else None)
    {
      if !compiled {
        return false, v, NotCompiled;
      }
      v' := v;
      if v.Some? {
        v' := Some([]);
      }
      var o := searchDFA(prog.value, text, v.Some?);
      if o.failed {
        return false, v', OutOfMemory;
      }
      if !o.matched {
        return false, v', NoError;
      }
      if v.Some? {
        if o.ids == [] {
          return false, v', Inconsistent;
        }
        v' := Some(o.ids);
      }
      return true, v', NoError;
    }
  }
}
