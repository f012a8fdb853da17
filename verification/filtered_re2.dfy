/** FilteredRE2 (re2/filtered_re2.cc): patterns kept as separately
    compiled regexes, with a prefilter tree that narrows, from the atoms
    found in a text, which of them are worth a full match.

    RE2 construction, Prefilter::FromRE2, the prefilter tree's Compile and
    RegexpsGivenStrings, and RE2::PartialMatch are outside this model; the
    class receives them as functions:
      - newRE2 gives the error code of RE2(pattern, options);
      - fromRE2 gives the prefilter of a compiled regex;
      - compileTree gives the atoms PrefilterTree::Compile reports for the
        prefilters added, at the tree's minimum atom length;
      - regexpsGivenStrings gives the candidate ids for the ids of the
        atoms found in the text, in the order the tree reports them;
      - partialMatch says whether the regex matches somewhere in the text. */
module FilteredRe2 {

  import opened Wrappers

  /** RE2::ErrorCode: NoError, or one of the parser's and compiler's error
      codes, kept as its number. */
  datatype ErrorCode = NoError | Error(code: int)

  /** The RE2::Options a pattern is added with.  Only log_errors is read by
      this file; the other settings reach newRE2 and partialMatch as they
      are. */
  datatype Options = Options(logErrors: bool, settings: map<string, int>)

  /** A regex in re2_vec_: the pattern and the options it was built with. */
  datatype RE2 = RE2(pattern: string, options: Options)

  /** A prefilter (re2/prefilter.h, not part of this model): the atoms a
      text must hold for the regex to have a chance to match. */
  datatype Prefilter =
    | All
    | NoneMatch
    | Atom(atom: string)
    | And(subs: seq<Prefilter>)
    | Or(subs: seq<Prefilter>)

  /** The PrefilterTree the class owns: its minimum atom length, the
      prefilters added to it in order, and whether it was compiled. */
  datatype PrefilterTree = PrefilterTree(minAtomLen: int, prefilters: seq<Prefilter>, compiled: bool)

  /** The minimum atom length of a PrefilterTree built without one.  The
      constant lives in re2/prefilter_tree.h, which is not part of this
      model. */
  const DefaultMinAtomLen: int := 3

  /** A fresh, empty tree. */
  function EmptyTree(minAtomLen: int): PrefilterTree
  {
    PrefilterTree(minAtomLen, [], false)
  }

  // ---------------------------------------------------------------------
  // What the searches compute, over a list of candidate ids.

  /** Every candidate names a regex of re2s. */
  predicate InRange(cands: seq<int>, n: int)
  {
    forall i :: 0 <= i < |cands| ==> 0 <= cands[i] < n
  }

  /** The candidates whose regex matches text, in candidate order. */
  function Matching(pm: (string, RE2) -> bool, re2s: seq<RE2>, text: string, cands: seq<int>): (m: seq<int>)
    requires InRange(cands, |re2s|)
    ensures |m| <= |cands|
  {
    if cands == [] then []
    else
      var k := cands[|cands| - 1];
      Matching(pm, re2s, text, cands[..|cands| - 1]) + (if pm(text, re2s[k]) then [k] else [])
  }

  /** The first candidate whose regex matches text, or -1. */
  function FirstMatchIn(pm: (string, RE2) -> bool, re2s: seq<RE2>, text: string, cands: seq<int>): int
    requires InRange(cands, |re2s|)
  {
    if cands == [] then -1
    else if pm(text, re2s[cands[0]]) then cands[0]
    else FirstMatchIn(pm, re2s, text, cands[1..])
  }

  /** The ids 0 .. n-1 in order: every regex, as SlowFirstMatch tries them. */
  function Indices(n: nat): (r: seq<int>)
    ensures |r| == n && forall i :: 0 <= i < n ==> r[i] == i
  {
    if n == 0 then [] else Indices(n - 1) + [n - 1]
  }

  /** The first match is the first candidate that matches: it is -1 exactly
      when no candidate matches, and otherwise it sits at a position all of
      whose predecessors fail. */
  lemma {:induction false} FirstMatchInFirst(pm: (string, RE2) -> bool, re2s: seq<RE2>, text: string, cands: seq<int>)
    requires InRange(cands, |re2s|)
    ensures var r := FirstMatchIn(pm, re2s, text, cands);
      && (r == -1 <==> forall q :: 0 <= q < |cands| ==> !pm(text, re2s[cands[q]]))
      && (r != -1 ==> exists p :: 0 <= p < |cands| && cands[p] == r && pm(text, re2s[r])
                         && forall q :: 0 <= q < p ==> !pm(text, re2s[cands[q]]))
  {
    if cands != [] {
      var rest := cands[1..];
      FirstMatchInFirst(pm, re2s, text, rest);
      var r := FirstMatchIn(pm, re2s, text, cands);
      if pm(text, re2s[cands[0]]) {
        assert cands[0] == r;
      } else {
        assert forall q :: 1 <= q < |cands| ==> cands[q] == rest[q - 1];
        if r != -1 {
          var p :| 0 <= p < |rest| && rest[p] == r && pm(text, re2s[r])
            && forall q :: 0 <= q < p ==> !pm(text, re2s[rest[q]]);
          assert cands[p + 1] == r;
        }
      }
    }
  }

  /** Matching on a concatenation. */
  lemma {:induction false} MatchingAppend(pm: (string, RE2) -> bool, re2s: seq<RE2>, text: string, a: seq<int>, b: seq<int>)
    requires InRange(a, |re2s|) && InRange(b, |re2s|)
    ensures InRange(a + b, |re2s|)
    ensures Matching(pm, re2s, text, a + b) == Matching(pm, re2s, text, a) + Matching(pm, re2s, text, b)
    decreases |b|
  {
    if b == [] {
      assert a + b == a;
    } else {
      var init := b[..|b| - 1];
      assert (a + b)[..|a + b| - 1] == a + init;
      MatchingAppend(pm, re2s, text, a, init);
    }
  }

  /** FirstMatch and AllMatches agree: the first match is the head of the
      list of all matches, or -1 when that list is empty. */
  lemma {:induction false} FirstOfAll(pm: (string, RE2) -> bool, re2s: seq<RE2>, text: string, cands: seq<int>)
    requires InRange(cands, |re2s|)
    ensures var m := Matching(pm, re2s, text, cands);
      FirstMatchIn(pm, re2s, text, cands) == if m == [] then -1 else m[0]
  {
    if cands != [] {
      var rest := cands[1..];
      assert cands == [cands[0]] + rest;
      MatchingAppend(pm, re2s, text, [cands[0]], rest);
      assert [cands[0]][..0] == [];
      FirstOfAll(pm, re2s, text, rest);
    }
  }

  /** The matching candidates are exactly the candidates whose regex
      matches, each as often as it is a candidate. */
  lemma {:induction false} MatchingMembers(pm: (string, RE2) -> bool, re2s: seq<RE2>, text: string, cands: seq<int>)
    requires InRange(cands, |re2s|)
    ensures forall k :: k in Matching(pm, re2s, text, cands) <==> k in cands && pm(text, re2s[k])
    ensures forall k :: k in cands && pm(text, re2s[k]) ==>
      multiset(Matching(pm, re2s, text, cands))[k] == multiset(cands)[k]
  {
    if cands != [] {
      var init, k := cands[..|cands| - 1], cands[|cands| - 1];
      assert cands == init + [k];
      MatchingMembers(pm, re2s, text, init);
      assert multiset(cands) == multiset(init) + multiset{k};
    }
  }

  /** With ascending candidates that include every regex that matches -
      a sound prefilter - the narrowed searches give what testing every
      regex would: the same first match, and the same matches. */
  lemma {:induction false} PrefilterExact(pm: (string, RE2) -> bool, re2s: seq<RE2>, text: string, cands: seq<int>)
    requires InRange(cands, |re2s|)
    requires forall p, q :: 0 <= p < q < |cands| ==> cands[p] < cands[q]
    requires forall i :: 0 <= i < |re2s| && pm(text, re2s[i]) ==> i in cands
    ensures FirstMatchIn(pm, re2s, text, cands) == FirstMatchIn(pm, re2s, text, Indices(|re2s|))
    ensures forall k :: k in Matching(pm, re2s, text, cands) <==> k in Matching(pm, re2s, text, Indices(|re2s|))
  {
    PrefilterFirst(pm, re2s, text, cands);
    PrefilterAll(pm, re2s, text, cands);
  }

  lemma {:induction false} PrefilterAll(pm: (string, RE2) -> bool, re2s: seq<RE2>, text: string, cands: seq<int>)
    requires InRange(cands, |re2s|)
    requires forall i :: 0 <= i < |re2s| && pm(text, re2s[i]) ==> i in cands
    ensures forall k :: k in Matching(pm, re2s, text, cands) <==> k in Matching(pm, re2s, text, Indices(|re2s|))
  {
    var all := Indices(|re2s|);
    AllIndices(|re2s|);
    MatchingMembers(pm, re2s, text, cands);
    MatchingMembers(pm, re2s, text, all);
    forall k ensures k in Matching(pm, re2s, text, cands) ==> k in Matching(pm, re2s, text, all) {
      if k in Matching(pm, re2s, text, cands) {
        var i :| 0 <= i < |cands| && cands[i] == k;
        assert k in all;
      }
    }
  }

  lemma {:induction false} PrefilterFirst(pm: (string, RE2) -> bool, re2s: seq<RE2>, text: string, cands: seq<int>)
    requires InRange(cands, |re2s|)
    requires forall p, q :: 0 <= p < q < |cands| ==> cands[p] < cands[q]
    requires forall i :: 0 <= i < |re2s| && pm(text, re2s[i]) ==> i in cands
    ensures FirstMatchIn(pm, re2s, text, cands) == FirstMatchIn(pm, re2s, text, Indices(|re2s|))
  {
    var all := Indices(|re2s|);
    FirstMatchInFirst(pm, re2s, text, all);
    var r2 := FirstMatchIn(pm, re2s, text, all);
    if r2 == -1 {
      forall q | 0 <= q < |cands| ensures !pm(text, re2s[cands[q]]) {
        assert all[cands[q]] == cands[q];
      }
      FirstMatchInFirst(pm, re2s, text, cands);
    } else {
      var p2 :| 0 <= p2 < |all| && all[p2] == r2 && pm(text, re2s[r2])
        && forall q :: 0 <= q < p2 ==> !pm(text, re2s[all[q]]);
      assert forall i :: 0 <= i < r2 ==> !pm(text, re2s[i]) by {
        forall i | 0 <= i < r2 ensures !pm(text, re2s[i]) {
          assert all[i] == i;
        }
      }
      FirstOfAscending(pm, re2s, text, cands, r2);
    }
  }

  /** Indices(n) holds exactly 0 .. n-1. */
  lemma {:induction false} AllIndices(n: nat)
    ensures forall k :: k in Indices(n) <==> 0 <= k < n
  {
    var all := Indices(n);
    forall k | 0 <= k < n ensures k in all {
      assert all[k] == k;
    }
  }

  /** Over ascending candidates that include m, the least index whose
      regex matches, the first match is m. */
  lemma {:induction false} FirstOfAscending(pm: (string, RE2) -> bool, re2s: seq<RE2>, text: string, cands: seq<int>, m: int)
    requires InRange(cands, |re2s|)
    requires forall p, q :: 0 <= p < q < |cands| ==> cands[p] < cands[q]
    requires m in cands && 0 <= m < |re2s| && pm(text, re2s[m])
    requires forall i :: 0 <= i < m ==> !pm(text, re2s[i])
    ensures FirstMatchIn(pm, re2s, text, cands) == m
  {
    FirstMatchInFirst(pm, re2s, text, cands);
    var p :| 0 <= p < |cands| && cands[p] == m;
    var r1 := FirstMatchIn(pm, re2s, text, cands);
    var p1 :| 0 <= p1 < |cands| && cands[p1] == r1 && pm(text, re2s[r1])
      && forall q :: 0 <= q < p1 ==> !pm(text, re2s[cands[q]]);
  }

  // ---------------------------------------------------------------------
  // The class.

  class FilteredRE2 {
    const newRE2: (string, Options) -> ErrorCode
    const fromRE2: RE2 -> Prefilter
    const compileTree: (int, seq<Prefilter>) -> seq<string>
    const regexpsGivenStrings: (PrefilterTree, seq<int>) -> seq<int>
    const partialMatch: (string, RE2) -> bool

    var re2s: seq<RE2>
    var compiled: bool
    var tree: PrefilterTree

    /** The prefilters Compile adds for the regexes rs, in order. */
    function Prefilters(rs: seq<RE2>): (ps: seq<Prefilter>)
      ensures |ps| == |rs| && forall i :: 0 <= i < |rs| ==> ps[i] == fromRE2(rs[i])
    {
      if rs == [] then [] else Prefilters(rs[..|rs| - 1]) + [fromRE2(rs[|rs| - 1])]
    }

    /** Before Compile the tree is empty; after it the tree holds one
        prefilter for each regex there was then, which is every regex but
        those added since, and is compiled. */
    ghost predicate Valid()
      reads this
    {
      && (!compiled ==> tree.prefilters == [] && !tree.compiled)
      && (compiled ==> tree.compiled && 0 < |tree.prefilters| <= |re2s|
                       && tree.prefilters == Prefilters(re2s[..|tree.prefilters|]))
    }

    /** FilteredRE2::FilteredRE2(min_atom_len) (filtered_re2.cc:37-40). */
    constructor(minAtomLen: int, newRE2: (string, Options) -> ErrorCode, fromRE2: RE2 -> Prefilter,
                compileTree: (int, seq<Prefilter>) -> seq<string>,
                regexpsGivenStrings: (PrefilterTree, seq<int>) -> seq<int>,
                partialMatch: (string, RE2) -> bool)
      ensures Valid()
      ensures this.newRE2 == newRE2 && this.fromRE2 == fromRE2 && this.compileTree == compileTree
      ensures this.regexpsGivenStrings == regexpsGivenStrings && this.partialMatch == partialMatch
      ensures re2s == [] && !compiled && tree == EmptyTree(minAtomLen)
    {
      this.newRE2 := newRE2;
      this.fromRE2 := fromRE2;
      this.compileTree := compileTree;
      this.regexpsGivenStrings := regexpsGivenStrings;
      this.partialMatch := partialMatch;
      re2s := [];
      compiled := false;
      tree := EmptyTree(minAtomLen);
    }

    /** FilteredRE2::FilteredRE2() (filtered_re2.cc:32-35): the tree gets
        the default minimum atom length. */
    constructor Default(newRE2: (string, Options) -> ErrorCode, fromRE2: RE2 -> Prefilter,
                        compileTree: (int, seq<Prefilter>) -> seq<string>,
                        regexpsGivenStrings: (PrefilterTree, seq<int>) -> seq<int>,
                        partialMatch: (string, RE2) -> bool)
      ensures Valid()
      ensures this.newRE2 == newRE2 && this.fromRE2 == fromRE2 && this.compileTree == compileTree
      ensures this.regexpsGivenStrings == regexpsGivenStrings && this.partialMatch == partialMatch
      ensures re2s == [] && !compiled && tree == EmptyTree(DefaultMinAtomLen)
    {
      this.newRE2 := newRE2;
      this.fromRE2 := fromRE2;
      this.compileTree := compileTree;
      this.regexpsGivenStrings := regexpsGivenStrings;
      this.partialMatch := partialMatch;
      re2s := [];
      compiled := false;
      tree := EmptyTree(DefaultMinAtomLen);
    }

    /** The move constructor (filtered_re2.cc:47-55): this object takes
        over other's regexes, flag and tree; other is left with no regexes,
        not compiled, and a fresh tree of the default atom length. */
    constructor Moved(other: FilteredRE2)
      requires other.Valid()
      modifies other
      ensures Valid() && other.Valid()
      ensures newRE2 == other.newRE2 && fromRE2 == other.fromRE2 && compileTree == other.compileTree
      ensures regexpsGivenStrings == other.regexpsGivenStrings && partialMatch == other.partialMatch
      ensures re2s == old(other.re2s) && compiled == old(other.compiled) && tree == old(other.tree)
      ensures other.re2s == [] && !other.compiled && other.tree == EmptyTree(DefaultMinAtomLen)
    {
      newRE2 := other.newRE2;
      fromRE2 := other.fromRE2;
      compileTree := other.compileTree;
      regexpsGivenStrings := other.regexpsGivenStrings;
      partialMatch := other.partialMatch;
      re2s := other.re2s;
      compiled := other.compiled;
      tree := other.tree;
      new;
      other.re2s := [];
      other.compiled := false;
      other.tree := EmptyTree(DefaultMinAtomLen);
    }

    /** FilteredRE2::Add (filtered_re2.cc:63-80).  id is what the call
        writes through the id pointer: the new regex's index on success,
        nothing on failure.  There is no guard against adding after
        Compile. */
    method Add(pattern: string, options: Options) returns (code: ErrorCode, id: Option<int>)
      requires Valid()
      modifies this
      ensures Valid()
      ensures code == newRE2(pattern, options)
      ensures code == NoError ==> re2s == old(re2s) + [RE2(pattern, options)] && id == Some(|old(re2s)|)
      ensures code != NoError ==> re2s == old(re2s) && id == None
      ensures compiled == old(compiled) && tree == old(tree)
    {
      code := newRE2(pattern, options);
      if code != NoError {
        id := None;
      } else {
        id := Some(|re2s|);
        ghost var n := |tree.prefilters|;
        assert (re2s + [RE2(pattern, options)])[..n] == re2s[..n];
        re2s := re2s + [RE2(pattern, options)];
      }
    }

    /** FilteredRE2::Compile (filtered_re2.cc:82-100).  atoms is the
        caller's vector; the result is what it holds afterwards.  A second
        call, or a call with no regexes, changes nothing; otherwise every
        regex's prefilter goes into the tree in index order, and the vector
        is cleared and refilled with the tree's atoms. */
    method Compile(atoms: seq<string>) returns (atoms': seq<string>)
      requires Valid()
      modifies this
      ensures Valid()
      ensures re2s == old(re2s)
      ensures old(compiled) || re2s == [] ==>
        compiled == old(compiled) && tree == old(tree) && atoms' == atoms
      ensures !old(compiled) && re2s != [] ==>
        && compiled
        && tree == PrefilterTree(old(tree.minAtomLen), Prefilters(re2s), true)
        && atoms' == compileTree(tree.minAtomLen, Prefilters(re2s))
    {
      if compiled {
        return atoms;
      }
      if re2s == [] {
        return atoms;
      }
      for i := 0 to |re2s|
        invariant re2s == old(re2s) && !compiled
        invariant tree == PrefilterTree(old(tree.minAtomLen), Prefilters(re2s[..i]), false)
      {
        assert re2s[..i + 1][..i] == re2s[..i];
        tree := tree.(prefilters := tree.prefilters + [fromRE2(re2s[i])]);
      }
      assert re2s[..|re2s|] == re2s;
      atoms' := [];
      atoms' := atoms' + compileTree(tree.minAtomLen, tree.prefilters);
      tree := tree.(compiled := true);
      compiled := true;
    }

    /** FilteredRE2::SlowFirstMatch, its final loop (filtered_re2.cc:149-152):
        the least index whose regex matches text, or -1 when none does. */
    method SlowFirstMatch(text: string) returns (r: int)
      ensures r == -1 <==> forall i :: 0 <= i < |re2s| ==> !partialMatch(text, re2s[i])
      ensures r != -1 ==> 0 <= r < |re2s| && partialMatch(text, re2s[r])
      ensures forall i :: 0 <= i < r ==> !partialMatch(text, re2s[i])
      ensures r == FirstMatchIn(partialMatch, re2s, text, Indices(|re2s|))
    {
      ghost var all := Indices(|re2s|);
      for i := 0 to |re2s|
        invariant forall j :: 0 <= j < i ==> !partialMatch(text, re2s[j])
        invariant FirstMatchIn(partialMatch, re2s, text, all[i..]) == FirstMatchIn(partialMatch, re2s, text, all)
      {
        assert all[i..][1..] == all[i + 1..];
        if partialMatch(text, re2s[i]) {
          return i;
        }
      }
      return -1;
    }

    /** FilteredRE2::FirstMatch (filtered_re2.cc:171-202): -1 before
        Compile; otherwise the first candidate, in the order the tree gives
        them, whose regex matches text, or -1. */
    method FirstMatch(text: string, atoms: seq<int>) returns (r: int)
      requires compiled ==> InRange(regexpsGivenStrings(tree, atoms), |re2s|)
      ensures !compiled ==> r == -1
      ensures compiled ==> r == FirstMatchIn(partialMatch, re2s, text, regexpsGivenStrings(tree, atoms))
    {
      if !compiled {
        return -1;
      }
      var regexps := regexpsGivenStrings(tree, atoms);
      for i := 0 to |regexps|
        invariant FirstMatchIn(partialMatch, re2s, text, regexps[i..]) == FirstMatchIn(partialMatch, re2s, text, regexps)
      {
        assert regexps[i..][1..] == regexps[i + 1..];
        if partialMatch(text, re2s[regexps[i]]) {
          return regexps[i];
        }
      }
      return -1;
    }

    /** FilteredRE2::AllMatches (filtered_re2.cc:204-214): the caller's
        vector is cleared, then receives every candidate whose regex
        matches text, in candidate order; the result says whether it is
        non-empty.  Compiled is not checked. */
    method AllMatches(text: string, atoms: seq<int>) returns (found: bool, matching: seq<int>)
      requires InRange(regexpsGivenStrings(tree, atoms), |re2s|)
      ensures matching == Matching(partialMatch, re2s, text, regexpsGivenStrings(tree, atoms))
      ensures var cands := regexpsGivenStrings(tree, atoms);
        found <==> exists i :: 0 <= i < |cands| && partialMatch(text, re2s[cands[i]])
    {
      matching := [];
      var regexps := regexpsGivenStrings(tree, atoms);
      for i := 0 to |regexps|
        invariant matching == Matching(partialMatch, re2s, text, regexps[..i])
      {
        assert regexps[..i + 1][..i] == regexps[..i];
        if partialMatch(text, re2s[regexps[i]]) {
          matching := matching + [regexps[i]];
        }
      }
      assert regexps[..|regexps|] == regexps;
      found := matching != [];
      MatchingMembers(partialMatch, re2s, text, regexps);
      if found {
        var k := matching[0];
        assert k in matching;
        var i :| 0 <= i < |regexps| && regexps[i] == k;
        assert partialMatch(text, re2s[regexps[i]]);
      } else {
        forall i | 0 <= i < |regexps| ensures !partialMatch(text, re2s[regexps[i]]) {
          assert regexps[i] in regexps;
        }
      }
    }

    /** FilteredRE2::AllPotentials (filtered_re2.cc:216-219): the tree's
        candidates, with no matching. */
    method AllPotentials(atoms: seq<int>) returns (potential: seq<int>)
      ensures potential == regexpsGivenStrings(tree, atoms)
    {
      potential := regexpsGivenStrings(tree, atoms);
    }
  }
}
