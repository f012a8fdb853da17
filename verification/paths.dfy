/** The three path helpers of re2/set.cc (lines 149-176): sanitize_path,
    normalize_path and resolve_path.  They are plain string functions; the
    only caller in the file hands their result to code that is not part of
    this model. */
module Paths {

  /** s with every c removed, the other characters kept in order
      (the erase-remove idiom, and sanitize_path's filter). */
  function Without(s: string, c: char): (r: string)
    ensures |r| <= |s|
  {
    if s == [] then []
    else Without(s[..|s| - 1], c) + (if s[|s| - 1] == c then [] else [s[|s| - 1]])
  }

  /** Without removes every c and nothing else: the count of every other
      character is unchanged. */
  lemma {:induction false} WithoutCounts(s: string, c: char)
    ensures c !in Without(s, c)
    ensures forall d :: d != c ==> multiset(Without(s, c))[d] == multiset(s)[d]
  {
    WithoutKeeps(s, c);
    forall d | d != c
      ensures multiset(Without(s, c))[d] == multiset(s)[d]
    {
      WithoutCount(s, c, d);
    }
  }

  lemma {:induction false} WithoutCount(s: string, c: char, d: char)
    requires d != c
    ensures multiset(Without(s, c))[d] == multiset(s)[d]
  {
    if s != [] {
      var init, x := s[..|s| - 1], s[|s| - 1];
      assert s == init + [x];
      WithoutSnoc(init, x, c);
      WithoutCount(init, c, d);
      assert multiset(s) == multiset(init) + multiset{x};
      assert multiset(Without(s, c)) == multiset(Without(init, c)) + multiset(if x == c then [] else [x]);
    }
  }

  /** A string without c is left as it is, and only such a string is. */
  lemma {:induction false} WithoutIdentity(s: string, c: char)
    ensures Without(s, c) == s <==> c !in s
  {
    WithoutCounts(s, c);
    if c !in s {
      WithoutOfClean(s, c);
    }
  }

  lemma {:induction false} WithoutOfClean(s: string, c: char)
    requires c !in s
    ensures Without(s, c) == s
  {
    if s != [] {
      var init := s[..|s| - 1];
      assert s == init + [s[|s| - 1]];
      WithoutOfClean(init, c);
    }
  }

  /** Removing c from a concatenation removes it from both parts. */
  lemma {:induction false} WithoutAppend(s: string, t: string, c: char)
    ensures Without(s + t, c) == Without(s, c) + Without(t, c)
    decreases |t|
  {
    if t == [] {
      assert s + t == s;
    } else {
      var init := t[..|t| - 1];
      assert (s + t)[..|s + t| - 1] == s + init;
      WithoutAppend(s, init, c);
    }
  }

  // ---------------------------------------------------------------------
  // sanitize_path.

  /** The index of the first NUL. */
  function NulAt(s: seq<char>): (k: nat)
    requires '\0' in s
    ensures k < |s| && s[k] == '\0' && '\0' !in s[..k]
  {
    if s[0] == '\0' then 0
    else
      assert '\0' in s[1..] by {
        var i :| 0 <= i < |s| && s[i] == '\0';
        assert s[1..][i - 1] == '\0';
      }
      var k := 1 + NulAt(s[1..]);
      assert s[..k] == [s[0]] + s[1..][..k - 1];
      k
  }

  /** The C string stored in s: the characters before the first NUL. */
  function CString(s: seq<char>): string
    requires '\0' in s
  {
    s[..NulAt(s)]
  }

  /** sanitize_path (set.cc:149-156): the characters of the C string input
      up to its NUL, without any ';'. */
  method SanitizePath(input: array<char>) returns (out: string)
    requires '\0' in input[..]
    ensures out == Without(CString(input[..]), ';')
  {
    ghost var z := NulAt(input[..]);
    out := "";
    var i := 0;
    while input[i] != '\0'
      invariant 0 <= i <= z
      invariant out == Without(input[..i], ';')
      decreases z - i
    {
      if input[i] != '\0' && input[i] != ';' {
        out := out + [input[i]];
      }
      assert input[..i + 1][..i] == input[..i];
      i := i + 1;
    }
  }

  /** What sanitize_path keeps: no ';', and every other character of the C
      string as often as it occurs there. */
  lemma {:induction false} SanitizedPath(input: seq<char>)
    requires '\0' in input
    ensures ';' !in Without(CString(input), ';')
    ensures forall d :: d != ';' ==> multiset(Without(CString(input), ';'))[d] == multiset(CString(input))[d]
  {
    WithoutCounts(CString(input), ';');
  }

  // ---------------------------------------------------------------------
  // normalize_path.

  /** The path with every backslash turned into a slash. */
  function Slashes(s: string): (r: string)
    ensures |r| == |s|
    ensures forall i :: 0 <= i < |s| ==> r[i] == if s[i] == '\\' then '/' else s[i]
  {
    if s == [] then []
    else Slashes(s[..|s| - 1]) + [if s[|s| - 1] == '\\' then '/' else s[|s| - 1]]
  }

  /** The loop of normalize_path on the converted path m: a character is
      kept unless it is a slash right after a slash of m. */
  function Collapse(m: string): (r: string)
    ensures |r| <= |m|
  {
    if m == [] then []
    else
      var n := |m|;
      Collapse(m[..n - 1]) + (if m[n - 1] == '/' && n >= 2 && m[n - 2] == '/' then [] else [m[n - 1]])
  }

  /** normalize_path's result: the collapsed path with the newlines,
      carriage returns and spaces removed. */
  function Normalized(path: string): string
  {
    Without(Without(Without(Collapse(Slashes(path)), '\n'), '\r'), ' ')
  }

  /** normalize_path (set.cc:158-170). */
  method NormalizePath(path: string) returns (out: string)
    ensures out == Normalized(path)
  {
    out := "";
    var last := '\0';
    ghost var m := Slashes(path);
    for i := 0 to |path|
      invariant out == Collapse(m[..i])
      invariant i > 0 ==> last == m[i - 1]
      invariant i == 0 ==> last == '\0'
    {
      var c := path[i];
      if c == '\\' {
        c := '/';
      }
      assert m[..i + 1][..i] == m[..i];
      if !(c == '/' && last == '/') {
        out := out + [c];
      }
      last := c;
    }
    assert m[..|path|] == m;
    out := Without(out, '\n');
    out := Without(out, '\r');
    out := Without(out, ' ');
  }

  /** No two slashes are next to each other. */
  predicate NoDoubleSlash(s: string)
  {
    forall i :: 0 < i < |s| ==> !(s[i - 1] == '/' && s[i] == '/')
  }

  /** The collapse loop leaves no two slashes together, and keeps the last
      character. */
  lemma {:induction false} CollapseSingle(m: string)
    ensures NoDoubleSlash(Collapse(m))
    ensures m != [] ==> Collapse(m) != [] && Collapse(m)[|Collapse(m)| - 1] == m[|m| - 1]
  {
    if m != [] {
      var n := |m|;
      var init := m[..n - 1];
      CollapseSingle(init);
      if n >= 2 {
        assert init[|init| - 1] == m[n - 2];
      }
    }
  }

  /** normalize_path leaves no backslash, newline, carriage return or
      space in the path. */
  lemma {:induction false} NormalizedClean(path: string)
    ensures '\\' !in Normalized(path) && '\n' !in Normalized(path)
    ensures '\r' !in Normalized(path) && ' ' !in Normalized(path)
  {
    var m := Slashes(path);
    var c := Collapse(m);
    var w1 := Without(c, '\n');
    var w2 := Without(w1, '\r');
    assert '\\' !in m;
    CollapseKeeps(m);
    WithoutKeeps(c, '\n');
    WithoutKeeps(w1, '\r');
    WithoutKeeps(w2, ' ');
  }

  /** Without adds nothing: what it returns comes from s and is not c. */
  lemma {:induction false} WithoutKeeps(s: string, c: char)
    ensures forall d :: d in Without(s, c) ==> d in s && d != c
  {
    if s != [] {
      var init := s[..|s| - 1];
      WithoutKeeps(init, c);
      assert s == init + [s[|s| - 1]];
    }
  }

  /** Collapse only drops characters: anything absent from m is absent from
      the result. */
  lemma {:induction false} CollapseKeeps(m: string)
    ensures forall d :: d !in m ==> d !in Collapse(m)
  {
    if m != [] {
      var init := m[..|m| - 1];
      CollapseKeeps(init);
      assert m == init + [m[|m| - 1]];
    }
  }

  /** Removing the spaces last can join two slashes again: "/ /" becomes
      "//", so a normalized path may still hold a double slash and
      normalizing it a second time changes it. */
  lemma {:induction false} SpaceBetweenSlashes()
    ensures Normalized("/ /") == "//"
    ensures Normalized("//") == "/"
  {
    SpacedCollapse();
    SpacedRemovals();
    DoubleCollapse();
    SlashKept();
  }

  lemma {:induction false} SpacedCollapse()
    ensures Collapse(Slashes("/ /")) == "/ /"
  {
    var a, b, p := ['/'], ['/', ' '], "/ /";
    assert b == a + [' '] && p == b + ['/'];
    assert Slashes(p) == p;
    CollapseSnoc([], '/');
    CollapseSnoc(a, ' ');
    CollapseSnoc(b, '/');
  }

  lemma {:induction false} SpacedRemovals()
    ensures Without(Without(Without("/ /", '\n'), '\r'), ' ') == "//"
  {
    var a, b, p := ['/'], ['/', ' '], "/ /";
    assert b == a + [' '] && p == b + ['/'];
    WithoutOfClean(p, '\n');
    WithoutOfClean(p, '\r');
    WithoutSnoc([], '/', ' ');
    WithoutSnoc(a, ' ', ' ');
    WithoutSnoc(b, '/', ' ');
  }

  lemma {:induction false} SlashKept()
    ensures Without(Without(Without("/", '\n'), '\r'), ' ') == "/"
  {
    WithoutOfClean("/", '\n');
    WithoutOfClean("/", '\r');
    WithoutOfClean("/", ' ');
  }

  lemma {:induction false} DoubleCollapse()
    ensures Collapse(Slashes("//")) == "/"
  {
    var a, q := ['/'], "//";
    assert q == a + ['/'];
    assert Slashes(q) == q;
    CollapseSnoc([], '/');
    CollapseSnoc(a, '/');
  }

  /** One more character for Collapse. */
  lemma {:induction false} CollapseSnoc(m: string, x: char)
    ensures Collapse(m + [x]) == Collapse(m) + (if x == '/' && |m| >= 1 && m[|m| - 1] == '/' then [] else [x])
  {
    assert (m + [x])[..|m|] == m;
  }

  /** One more character for Without. */
  lemma {:induction false} WithoutSnoc(m: string, x: char, c: char)
    ensures Without(m + [x], c) == Without(m, c) + (if x == c then [] else [x])
  {
    assert (m + [x])[..|m|] == m;
  }

  // ---------------------------------------------------------------------
  // resolve_path.

  /** resolve_path (set.cc:172-176). */
  function ResolvePath(path: string): (r: string)
  {
    if path == [] then path
    else if path[0] == '/' then path
    else "/tmp/" + path
  }

  /** A resolved path is empty or absolute, ends with the path it was given,
      and resolving it again changes nothing. */
  lemma {:induction false} ResolvedAbsolute(path: string)
    ensures ResolvePath(path) == [] <==> path == []
    ensures ResolvePath(path) != [] ==> ResolvePath(path)[0] == '/'
    ensures var r := ResolvePath(path); |r| >= |path| && r[|r| - |path|..] == path
    ensures ResolvePath(path) == path <==> path == [] || path[0] == '/'
    ensures ResolvePath(ResolvePath(path)) == ResolvePath(path)
  {
  }
}
