# RE2 matching core in Dafny

This project models four parts of the RE2 regular-expression library and
proves properties of the model:

- **The UTF-8 rune codec of `util/rune.cc`.**
  - `chartorune` decodes one rune, `runetochar` encodes one, `runelen` sizes one and `fullrune` checks that a buffer holds a whole one.
  - `utflen` counts the runes of a NUL-terminated string; `utfrune` finds a rune in one.
  - Buffers are arrays of byte values 0..255 with a NUL in them. The bit operations are written as arithmetic; small lemmas on `bv8`/`bv32` show the two agree.
- **The printer of `re2/tostring.cc`.** `ToStringWalker` turns a `Regexp` tree back into pattern text.
  - Its `PreVisit`/`PostVisit` visits append to one buffer, as do `AppendLiteral`, `AppendCCChar` and `AppendCCRange`.
  - A recursive function, `Shown`, says what text each tree stands for. The walk is proved to append exactly that text.
  - A reader of the class and literal syntax (`ClassSyntax`) is the printer's partner: reading the printed runes, ranges and classes gives back what was printed.
  - The `%d`, `%x` and `%02x` formats the printer uses are in `Format`, with their own round trips.
- **`RE2::Set` (`re2/set.cc`).** The class `Re2Set.Set` has the constructor, the move constructor, `Add`, `Compile` and `Match`. The same file's `sanitize_path`, `normalize_path` and `resolve_path` are in `Paths`.
- **`FilteredRE2` (`re2/filtered_re2.cc`).** The class `FilteredRe2.FilteredRE2` has the two constructors, the move constructor, `Add`, `Compile`, `FirstMatch`, `AllMatches`, `AllPotentials` and the final loop of `SlowFirstMatch`.

The classes do not contain their collaborators; each receives them as function-valued constants (oracles):

- `Set` receives the regexp parser, `Prog::CompileSet` and the DFA search.
- `FilteredRE2` receives:
  - RE2 construction;
  - `Prefilter::FromRE2`;
  - the prefilter tree's `Compile` and `RegexpsGivenStrings`;
  - `RE2::PartialMatch`.

Over those oracles each method states its whole new state and result.

Files:
- `wrappers.dfy`: `Option` and `Result`.
- `regexp_tree.dfy`: the `Regexp` tree and character classes.
- `utf.dfy`: the codec.
- `format.dfy`: the number formats.
- `tostring.dfy`: the printer.
- `class_syntax.dfy` and `class_round_trip.dfy`: the reader and the round trips.
- `re2_set.dfy`: `RE2::Set`.
- `paths.dfy`: the path helpers.
- `filtered_re2.dfy`: `FilteredRE2`.

## Model

| member | source | states |
|---|---|---|
| Utf.LeadLength | util/rune.cc:233-250 | the length a lead byte announces is 1..4 |
| Utf.Encoding | util/rune.cc:168-223 | the encoding of a value up to 0x1FFFFF has 1, 2, 3 or 4 bytes exactly when the value is at most Rune1, Rune2, Rune3 or above |
| Utf.DecodeBytes | util/rune.cc:94-165 | decoding a lead byte and three following bytes gives a length 1..4 and a value no larger than Rune4 |
| Utf.CharToRune | util/rune.cc:68-166 | chartorune reads 1..4 bytes and never more than the string holds, except on the empty string, where it reads the terminating NUL and returns rune 0 with length 1 |
| Utf.DecodeShape | util/rune.cc:100-165 | a byte below 0x80 decodes to itself with length 1; a length-1 result is that byte or Runeerror; a longer result is as long as the lead byte says, is followed only by continuation bytes, and its value lies in that length's range, so overlong forms are rejected |
| Utf.DecodeCharacterization | util/rune.cc:100-165 | chartorune returns the value whose encoding the bytes start with, and (Runeerror, 1) when they start with no encoding of a value above 0x7F and the lead byte is not ASCII |
| Utf.DecodeEncoding | util/rune.cc:100-223 | decoding the encoding of any value up to 0x1FFFFF, whatever follows it, gives back the value and the encoding's length |
| Utf.DecodedIsEncoding | util/rune.cc:108-156 | every multi-byte decode consumed exactly the encoding of the value it returns |
| Utf.EncodingOfDecodedBytes | util/rune.cc:108-156 | the bytes a successful multi-byte decode consumed are the encoding of the decoded value |
| Utf.DecodeStopsAtNul | util/rune.cc:111-113 | chartorune never reads past a NUL: its result depends only on the bytes before the first NUL |
| Utf.Unsigned | util/rune.cc:171-178 | the signed rune converted to unsigned int: non-negative runes keep their value, negative ones exceed Runemax |
| Utf.EncodedLength | util/rune.cc:225-231 | the number of bytes runetochar writes for a rune is the length of its encoding |
| Utf.RuneToChar | util/rune.cc:168-223 | runetochar writes the encoding of the rune (Runeerror's for a rune out of range) at the front of the buffer, returns its length, and leaves the rest of the buffer unchanged |
| Utf.RuneLen | util/rune.cc:225-231 | runelen is 1, 2, 3 or 4 exactly for the runes in 0..0x7F, 0x80..0x7FF, 0x800..0xFFFF or out of range, and 0x10000..0x10FFFF |
| Utf.RuneRoundTrip | util/rune.cc:100-223 | chartorune after runetochar gives back every rune in 0..Runemax with the length written, and Runeerror with length 3 for any other rune |
| Utf.FullRune | util/rune.cc:233-250 | fullrune holds exactly when n is positive and at least the length the lead byte announces |
| Utf.FullRuneDecides | util/rune.cc:233-250 | when fullrune holds for n bytes, chartorune's result does not depend on what follows them |
| Utf.RunesOfEncoding | util/rune.cc:253-272 | splitting the concatenated encodings of valid runes into runes gives back those runes |
| Utf.FirstRunePos | util/rune.cc:284-298 | the first occurrence of a rune, when found, starts inside the bytes searched |
| Utf.FirstRunePosAbsent | util/rune.cc:274-300 | the rune search finds nothing exactly when the rune is not among the decoded runes |
| Utf.FirstRunePosFindsFirst | util/rune.cc:274-300 | the rune search returns the byte offset where the first occurrence of the rune starts |
| Utf.StrLen | util/rune.cc:261-263 | the offset of the first NUL |
| Utf.StrChr | util/rune.cc:281-282 | strchr finds the first offset, up to and including the NUL, holding the byte, or nothing when none does |
| Utf.Advance | util/rune.cc:262-269 | one step of utflen's loop moves past at least one byte, never past the NUL, and the runes counted plus the runes left before the NUL stay the total |
| Utf.UtfLen | util/rune.cc:253-272 | utflen is the number of runes decoded before the first NUL |
| Utf.SearchAdvance | util/rune.cc:285-297 | one step of utfrune's loop either stops at the rune sought or moves past one rune without changing where the first occurrence is |
| Utf.SearchRune | util/rune.cc:284-299 | the loop of utfrune returns the offset of the first rune equal to c before the NUL, or nothing |
| Utf.UtfRune | util/rune.cc:274-300 | a rune below Runesync is searched for with strchr, its low byte, NUL included; any other is found as a whole decoded rune, at its first occurrence |
| Utf.ContinuationTestBits | util/rune.cc:111-113 | the test `(b ^ Tx) & Testx` rejects a byte exactly when it is not in 0x80..0xBF |
| Utf.TwoByteAssemblyBits | util/rune.cc:114-118 | the two-byte assembly with shifts and masks equals the arithmetic value the model uses |
| Utf.TwoByteEmitBits | util/rune.cc:188-190 | the two bytes runetochar writes with or and shift equal the arithmetic ones the model uses |
| Utf.ThreeByteAssemblyBits | util/rune.cc:129-137 | the three-byte assembly with shifts and the `Rune3` mask equals the arithmetic value the model uses |
| Utf.FourByteAssemblyBits | util/rune.cc:144-152 | the four-byte assembly with shifts and the `Rune4` mask equals the arithmetic value the model uses |
| Utf.ThreeByteEmitBits | util/rune.cc:207-211 | the three bytes runetochar writes with or, shift and `Maskx` equal the arithmetic ones the model uses |
| Utf.FourByteEmitBits | util/rune.cc:218-222 | the four bytes runetochar writes with or, shift and `Maskx` equal the arithmetic ones the model uses, for every rune up to Runemax |
| Format.Numeral | re2/tostring.cc:249-254 | the digits of a number in base 2..16 are valid digits, and the first is '0' only for zero |
| Format.NumeralRoundTrip | re2/tostring.cc:249-254 | reading the digits back gives the number |
| Format.NumeralInjective | re2/tostring.cc:249-254 | two numbers have the same digits exactly when they are equal |
| Format.Decimal | re2/tostring.cc:249-254 | `%d` starts with '-' exactly for a negative number |
| Format.DecimalRoundTrip | re2/tostring.cc:249-254 | reading `%d` back gives the number |
| Format.Hex | re2/tostring.cc:369 | `%x` consists of hex digits, with a leading '0' only for zero |
| Format.HexRoundTrip | re2/tostring.cc:369 | reading `%x` back gives the number |
| Format.Hex2 | re2/tostring.cc:365-366 | `%02x` of a byte is exactly two hex digits |
| Format.Hex2RoundTrip | re2/tostring.cc:365-366 | reading `%02x` back gives the byte |
| ToString.CCChar | re2/tostring.cc:337-370 | a rune's text in a class is never empty and never starts with ']', '^' or '-' |
| ToString.CCRange | re2/tostring.cc:372-380 | a range's text is empty exactly when lo > hi, and otherwise never starts with ']', '^' or '-' |
| ToString.LiteralText | re2/tostring.cc:160-173 | a literal rune's text is never empty |
| ToString.ToStringWalker.constructor | re2/tostring.cc:45-57 | the walker starts on the caller's string |
| ToString.ToStringWalker.AppendCCChar | re2/tostring.cc:337-370 | appends exactly the rune's class text |
| ToString.ToStringWalker.AppendCCRange | re2/tostring.cc:372-380 | appends exactly the range's class text |
| ToString.ToStringWalker.AppendLiteral | re2/tostring.cc:160-173 | appends exactly the literal's text |
| ToString.ToStringWalker.PreVisit | re2/tostring.cc:99-158 | appends the opening group or capture parenthesis the context needs and returns the precedence the children are printed at |
| ToString.ToStringWalker.AppendLiterals | re2/tostring.cc:200-203 | appends the literal text of every rune of a literal string, in order |
| ToString.ToStringWalker.AppendClass | re2/tostring.cc:296-315 | appends the class text: an empty class as the no-match class, a class holding 0xFFFE but not full as its negation after '^', any other as its ranges |
| ToString.ToStringWalker.AppendSuffix | re2/tostring.cc:224-259 | appends the repetition operator and, when non-greedy, '?' |
| ToString.ToStringWalker.AppendAtom | re2/tostring.cc:182-198 | appends the whole text of an operator without sub-expressions (also lines 261-326) |
| ToString.ToStringWalker.DropTrailingBar | re2/tostring.cc:213-217 | removes the buffer's last character when it is '|' and otherwise leaves it |
| ToString.ToStringWalker.AppendTail | re2/tostring.cc:181-326 | appends what PostVisit writes for the node itself |
| ToString.ToStringWalker.PostVisit | re2/tostring.cc:178-334 | drops an alternation's trailing '|', appends the node's own text and closing parenthesis, then a '|' when the parent is an alternation |
| ToString.ToStringWalker.Walk | re2/tostring.cc:99-334 | the walk of PreVisit, the children and PostVisit appends exactly Shown(re, prec), plus a '|' below an alternation |
| ToString.ToStringWalker.WalkChildren | re2/tostring.cc:120-131 | the children walked in order append the inner text of the node, and an alternation's last '|' |
| ToString.ToStringWalker.WalkConcat | re2/tostring.cc:120-125 | the children of a concatenation append their texts one after another |
| ToString.ToStringWalker.WalkAlternation | re2/tostring.cc:127-131 | the branches of an alternation append their texts joined by '|', with a final '|' |
| ToString.RegexpToString | re2/tostring.cc:63-93 | the printed text of a tree is Shown(re, PrecToplevel) |
| ToString.ShownSplit | re2/tostring.cc:99-334 | the two visits and the children's text put together are the node's text, for every operator |
| ToString.RepetitionShown | re2/tostring.cc:145-157 | a repetition is its operand at atom precedence followed by its suffix, grouped when the context binds tighter (also lines 224-259) |
| ToString.BarredJoin | re2/tostring.cc:213-217 | branches each followed by '|' are the branches joined by '|' plus one final '|' |
| ToString.DropLastBar | re2/tostring.cc:213-217 | dropping the trailing '|' undoes appending it |
| ClassSyntax.HexDigitsRun | re2/tostring.cc:365-369 | the reader's digit count covers exactly the leading run of hex digits |
| ClassSyntax.ParseCCChar | re2/tostring.cc:337-370 | a rune read from the front of a text takes at least one and at most all of its characters |
| ClassSyntax.ParseCCRange | re2/tostring.cc:372-380 | the same for a range |
| ClassSyntax.Visible | re2/tostring.cc:372-374 | the ranges that print, all with lo <= hi |
| ClassSyntax.ParseLiteral | re2/tostring.cc:160-173 | the same for a literal |
| ClassRoundTrip.CCCharRoundTrip | re2/tostring.cc:337-370 | reading a rune's class text back, whatever follows, gives the rune and the text's length |
| ClassRoundTrip.AllCharsRoundTrip | re2/tostring.cc:337-370 | reading back the class text of every rune, followed by anything, gives the rune and the text's length |
| ClassRoundTrip.CCRangeRoundTrip | re2/tostring.cc:372-380 | reading a non-empty range's text back, when no '-' follows, gives the range and the text's length |
| ClassRoundTrip.RangesRoundTrip | re2/tostring.cc:309-310 | reading a class body back up to ']' gives the ranges that print, in order |
| ClassRoundTrip.ClassRoundTrip | re2/tostring.cc:296-315 | reading a non-empty class's text back gives the negation flag the printer chose and the ranges it printed |
| ClassRoundTrip.NegatedParse | re2/tostring.cc:305-314 | a class printed after '^' reads back as negated, with its visible ranges |
| ClassRoundTrip.PlainParse | re2/tostring.cc:300-314 | a class printed without '^' reads back as not negated, with its visible ranges |
| ClassRoundTrip.NoMatchRoundTrip | re2/tostring.cc:182-186 | the no-match text is the negated class of every rune and reads back as one |
| ClassRoundTrip.RangesTextHead | re2/tostring.cc:309-310 | a class body never starts with ']', '^' or '-' |
| ClassRoundTrip.LiteralRoundTrip | re2/tostring.cc:160-173 | reading a literal's text back, whatever follows, gives the rune, whether it was printed case-folded, and the text's length |
| ClassRoundTrip.CCCharEscapeHead | re2/tostring.cc:160-173 | a class text never starts with '[', and starts with a backslash and a literal metacharacter only for that metacharacter itself |
| Re2Set.MarkerRoundTrip | re2/set.cc:94-110 | the stored tree ends with HaveMatch of the new id, preceded by the parsed tree's items when it was a concatenation and by the tree itself otherwise |
| Re2Set.LessIrreflexive | re2/set.cc:123-128 | the pattern order is irreflexive |
| Re2Set.LessTransitive | re2/set.cc:123-128 | the pattern order is transitive |
| Re2Set.LessTotal | re2/set.cc:123-128 | any two different patterns are ordered one way or the other |
| Re2Set.Insert | re2/set.cc:123-128 | insertion adds one element |
| Re2Set.SortByPattern | re2/set.cc:123-128 | the sort keeps the number of elements |
| Re2Set.InsertPermutes | re2/set.cc:123-128 | insertion adds exactly the element inserted |
| Re2Set.InsertSorted | re2/set.cc:123-128 | insertion into a sorted list keeps it sorted |
| Re2Set.SortSorted | re2/set.cc:123-128 | the sort's result is ordered by pattern |
| Re2Set.SortPermutes | re2/set.cc:123-128 | the sort's result holds the same elements, each as often |
| Re2Set.SortByPatternCorrect | re2/set.cc:123-128 | Compile's sort orders the elements by pattern and is a permutation of them |
| Re2Set.SortKeepsIds | re2/set.cc:123-128 | sorting changes no id's number of occurrences among the match markers |
| Re2Set.MarkersOfPermutation | re2/set.cc:123-133 | a permutation of the elements is a permutation of their markers |
| Re2Set.MarkersSplit | re2/set.cc:130-132 | the markers of a concatenation are the markers of both parts |
| Re2Set.DenseIdsCount | re2/set.cc:94-111 | before Compile, every id 0..n-1 is the marker of exactly one element and no other id is any element's marker |
| Re2Set.CompiledIds | re2/set.cc:115-133 | after Compile's sort, every id 0..size-1 still marks exactly one arm of the alternation and no other id marks any |
| Re2Set.Set.constructor | re2/set.cc:43-49 | a new set is empty, not compiled, of size 0 and without a program |
| Re2Set.Set.Moved | re2/set.cc:56-68 | the new set takes over the other's state; the other is left empty and not compiled |
| Re2Set.Set.Add | re2/set.cc:76-113 | after Compile, -1 and no change; on a parse error, -1, the parser's message and no change; otherwise the next id, with the pattern stored as its tree followed by the id's marker |
| Re2Set.Set.Compile | re2/set.cc:115-143 | a second call fails without change; the first records the size, empties the list, and keeps the program compiled from the alternation of the trees sorted by pattern, succeeding exactly when there is one |
| Re2Set.Set.Match | re2/set.cc:183-258 | not compiled: false, kNotCompiled, v untouched; DFA out of memory: false, kOutOfMemory; no match: false, kNoError; a match with an empty id set when ids are wanted: false, kInconsistent; otherwise true, kNoError and v the ids; v is cleared first whenever it is given and the set is compiled |
| Paths.Without | re2/set.cc:166-168 | removing a character never lengthens a string |
| Paths.WithoutCounts | re2/set.cc:149-156 | after removal the character is gone and every other character occurs as often as before |
| Paths.WithoutIdentity | re2/set.cc:166-168 | removal leaves a string unchanged exactly when the character does not occur in it |
| Paths.WithoutAppend | re2/set.cc:166-168 | removal distributes over concatenation |
| Paths.NulAt | re2/set.cc:150-151 | the offset of the first NUL |
| Paths.SanitizePath | re2/set.cc:149-156 | sanitize_path returns the C string's characters before the NUL, without ';', in order |
| Paths.SanitizedPath | re2/set.cc:149-156 | the sanitized path holds no ';' and every other character as often as the input |
| Paths.Slashes | re2/set.cc:162 | every backslash becomes a slash and nothing else changes |
| Paths.Collapse | re2/set.cc:161-165 | the collapse loop never lengthens the path |
| Paths.NormalizePath | re2/set.cc:158-170 | normalize_path maps backslashes to slashes, drops each slash that follows a slash, then removes newlines, carriage returns and spaces |
| Paths.CollapseSingle | re2/set.cc:161-165 | after the loop no two slashes are adjacent, and the last character is kept |
| Paths.WithoutKeeps | re2/set.cc:166-168 | every character left after removal was in the string and is not the removed one |
| Paths.CollapseKeeps | re2/set.cc:161-165 | the collapse loop introduces no character that was not in the path |
| Paths.NormalizedClean | re2/set.cc:158-170 | a normalized path contains no backslash, newline, carriage return or space |
| Paths.SpaceBetweenSlashes | re2/set.cc:158-170 | "/ /" normalizes to "//", which normalizes again to "/": removing spaces after the collapse can leave a double slash |
| Paths.ResolvedAbsolute | re2/set.cc:172-176 | resolve_path leaves empty and absolute paths unchanged and puts "/tmp/" before any other; the result is empty or absolute, ends with the input, and resolving again changes nothing |
| FilteredRe2.Matching | re2/filtered_re2.cc:210-212 | the matching candidates are never more than the candidates |
| FilteredRe2.Indices | re2/filtered_re2.cc:149 | SlowFirstMatch tries the indices 0..n-1 in order |
| FilteredRe2.FirstMatchInFirst | re2/filtered_re2.cc:198-201 | the first match is -1 exactly when no candidate matches, and otherwise a matching candidate all of whose predecessors fail |
| FilteredRe2.MatchingAppend | re2/filtered_re2.cc:210-212 | the matches of a concatenation of candidate lists are the matches of both |
| FilteredRe2.FirstOfAll | re2/filtered_re2.cc:192-213 | FirstMatch's answer is the first element of what AllMatches collects, or -1 when that is empty |
| FilteredRe2.MatchingMembers | re2/filtered_re2.cc:210-212 | AllMatches collects exactly the candidates whose regex matches, each as often as it is a candidate |
| FilteredRe2.PrefilterExact | re2/filtered_re2.cc:192-213 | with ascending candidates that include every regex that matches, FirstMatch gives what testing every regex in index order gives, and AllMatches finds the same regexes |
| FilteredRe2.PrefilterFirst | re2/filtered_re2.cc:192-201 | the FirstMatch half of that |
| FilteredRe2.PrefilterAll | re2/filtered_re2.cc:207-213 | the AllMatches half of that |
| FilteredRe2.AllIndices | re2/filtered_re2.cc:149 | the indices tried are exactly 0..n-1 |
| FilteredRe2.FirstOfAscending | re2/filtered_re2.cc:198-201 | over ascending candidates containing the least matching index, the first match is that index |
| FilteredRe2.FilteredRE2.Prefilters | re2/filtered_re2.cc:93-96 | one prefilter per regex, from that regex, in index order |
| FilteredRe2.FilteredRE2.constructor | re2/filtered_re2.cc:37-40 | no regexes, not compiled, an empty tree with the given minimum atom length |
| FilteredRe2.FilteredRE2.Default | re2/filtered_re2.cc:32-35 | the same with the default minimum atom length |
| FilteredRe2.FilteredRE2.Moved | re2/filtered_re2.cc:47-55 | the new object takes over the regexes, flag and tree; the other is left with no regexes, not compiled and a fresh default tree |
| FilteredRe2.FilteredRE2.Add | re2/filtered_re2.cc:63-80 | returns the constructed regex's error code; on success appends the regex and reports its index, the previous count; on failure changes nothing and writes no id; compiled or not |
| FilteredRe2.FilteredRE2.Compile | re2/filtered_re2.cc:82-100 | a second call, or a call with no regexes, changes nothing and leaves the atoms; otherwise every regex's prefilter goes into the tree in index order, the atoms are replaced by the tree's, and the object is compiled |
| FilteredRe2.FilteredRE2.SlowFirstMatch | re2/filtered_re2.cc:149-152 | the least index whose regex matches the text, or -1 exactly when none does |
| FilteredRe2.FilteredRE2.FirstMatch | re2/filtered_re2.cc:192-201 | -1 before Compile; afterwards the first candidate, in the tree's order, whose regex matches, or -1 |
| FilteredRe2.FilteredRE2.AllMatches | re2/filtered_re2.cc:207-213 | the output holds the matching candidates in candidate order, whatever it held before; the result is true exactly when some candidate matches; compiled is not checked |
| FilteredRe2.FilteredRE2.AllPotentials | re2/filtered_re2.cc:216-219 | the tree's candidates, unchanged |

## Left out

- The socket and `recv` blocks are not modelled:
  - util/rune.cc:71-93;
  - re2/tostring.cc:67-87;
  - re2/set.cc:195-222;
  - re2/filtered_re2.cc:104-148 and 174-191.
  Each function is modelled as if they were absent: chartorune decodes the caller's bytes.
- These unsafe sinks and the functions that feed them are defects, not behaviour, and are not modelled:
  - `set_permissions`, `remove_user_dir`, `ProcessPatternBuffer`, `SetReleaseAuxBuffer`/`DFAProcessAuxBuffer` in re2/set.cc;
  - `StorePatternList`, `handle_socket_patterns`, `ExecuteEchoWithTransformedInput` in re2/filtered_re2.cc;
  - `process_socket_data` in util/rune.cc;
  - `AnalyzeDelimitedInput` in re2/tostring.cc.
- app/_re2.cc is not part of this model. It is a binding layer.
- re2/dfa.h is not part of this model: it holds declarations only. `Prog::SearchDFA` is the oracle `searchDFA`, and the DFA's memory budget shows only through its `failed` flag.
- These collaborators are oracles whose own behaviour is not modelled:
  - `Regexp::Parse`, `Prog::CompileSet`, `RE2` construction, `RE2::PartialMatch`, `Prefilter::FromRE2`, `PrefilterTree::Compile`, `PrefilterTree::RegexpsGivenStrings`.
  - re2/prefilter_tree.cc is not part of this model. Its candidate list is only assumed, in `PrefilterExact`, to be ascending and to include every regex that matches.
- ToString.ToStringWalker.Walk: does not model WalkExponential's budget of 100000 visits or the " [truncated]" suffix (re2/tostring.cc:89-91), because the walker that enforces them is not part of this model. The walk is plain recursion.
- ToString.RegexpToString: never appends the " [truncated]" suffix (re2/tostring.cc:89-91), because the walk it runs has no visit budget.
- ToString.ToStringWalker.Walk: requires every alternation to have a branch (`WellFormed`). With none, the printer reads `(*t_)[t_->size()-1]` of the buffer and logs instead of printing.
- ToString.RegexpToString: requires `WellFormed` too, for the same reason.
- ToString.ToStringWalker.AppendClass: `CharClass::Negate` is taken to be the class's `negation` field; `Contains` and `full()` are defined on the ranges. The iteration order of `CharClass` is the order of the `ranges` sequence.
- Re2Set.WithMarker: builds `Concat(...)` directly. `Regexp::Concat`, called at re2/set.cc:104 and 109, is not part of this model; it may nest a concatenation whose item count exceeds the tree's per-node limit, while the model keeps one flat list.
- Re2Set.Set.Compile: builds `Alternate(arms)` directly. `Regexp::Alternate`'s simplification of zero or one arm, and its factoring, belong to the oracle `compileSet`, which receives the tree.
- Re2Set.SortByPattern: is one of the orders `std::sort` may produce. `std::sort` is not stable, and among equal patterns the model fixes one order. The properties proved (sorted, a permutation, each id marking exactly one arm) hold for every order the sort may produce.
- Re2Set.Set.Match: requires a program to exist once compiled. After a Compile that failed, the source dereferences a null `prog_`.
- Re2Set.Set.Match: the `SparseSet` of matches is the list `ids` that `searchDFA` returns, in its iteration order.
- FilteredRe2.FilteredRE2.FirstMatch and FilteredRe2.FilteredRE2.AllMatches: require every candidate id to index a regex. The source indexes `re2_vec_` with them unchecked.
- FilteredRe2.DefaultMinAtomLen: the default minimum atom length, 3, comes from re2/prefilter_tree.h, which is not part of this model.
- Paths.NormalizePath: `std::remove` followed by `erase` is modelled by the function `Without`, not by an in-place loop.
- Logging (`ABSL_LOG`), reference counting, destructors, move assignment and `hooks::context` are not modelled; they do not change results.
- `FilteredRE2::RegexpsGivenStrings` and `PrintPrefilter` are not modelled. They only forward to the tree.
- The two-argument `RE2::Set::Match` is not modelled separately. It forwards with no error info.
- `Set::Add` and `FilteredRE2::Add` take only the pattern (and the options). The error-string and id out-pointers are results. `Set::Match`'s optional `error_info` is always reported, as `kind`.
