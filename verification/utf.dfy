/** The UTF-8 rune codec of util/rune.cc: chartorune, runetochar, runelen,
    fullrune, utflen and utfrune.

    Bytes are the integers 0..255.  The C code tests and assembles bytes with
    xor, and, or and shifts; the model writes the same computations as
    arithmetic, which agrees with the bit operations on the ranges where they
    are evaluated (see the bit-level lemmas near the end of the module).

    A C string is the sequence of bytes before its terminating NUL.  Reading a
    byte at or after the end of such a sequence yields 0, which is the NUL. */
module Utf {
  import opened Wrappers

  type Byte = b: int | 0 <= b < 0x100

  /** Rune is a signed 32-bit integer in the C code. */
  type Rune = r: int | -0x8000_0000 <= r < 0x8000_0000

  // Constants of util/utf.h.
  const UTFmax := 4
  const Runesync := 0x80
  const Runeself := 0x80
  const Runeerror := 0xFFFD
  const Runemax := 0x10FFFF

  // Lead-byte tags and value limits of rune.cc's enum:
  // Tx = 1000 0000, T2 = 1100 0000, T3 = 1110 0000, T4 = 1111 0000, T5 = 1111 1000.
  const Tx := 0x80
  const T2 := 0xC0
  const T3 := 0xE0
  const T4 := 0xF0
  const T5 := 0xF8
  const Rune1 := 0x7F
  const Rune2 := 0x7FF
  const Rune3 := 0xFFFF
  const Rune4 := 0x1F_FFFF
  const Maskx := 0x3F

  /** The result of chartorune: the rune stored through *rune and the
      number of bytes returned. */
  datatype Decoded = Decoded(rune: int, len: nat)

  /** The byte at index i of a C string whose bytes before the NUL are s. */
  function ByteAt(s: seq<Byte>, i: nat): Byte
  {
    if i < |s| then s[i] else 0
  }

  /** A continuation byte 10xx xxxx: the C test `((b ^ Tx) & Testx) == 0`. */
  predicate IsContinuation(b: Byte)
  {
    Tx <= b < T2
  }

  /** The sequence length announced by a lead byte, as fullrune reads it. */
  function LeadLength(c: Byte): (n: nat)
    ensures 1 <= n <= UTFmax
  {
    if c < Tx then 1 else if c < T3 then 2 else if c < T4 then 3 else 4
  }

  /** The shortest encoding of v in the byte layout of section 3 of RFC 3629,
      extended to the 21-bit values 0x110000..0x1FFFFF as the C code does. */
  function Encoding(v: int): (e: seq<Byte>)
    requires 0 <= v <= Rune4
    ensures 1 <= |e| <= UTFmax
    ensures |e| == 1 <==> v <= Rune1
    ensures |e| == 2 <==> Rune1 < v <= Rune2
    ensures |e| == 3 <==> Rune2 < v <= Rune3
    ensures |e| == 4 <==> Rune3 < v
  {
    if v <= Rune1 then [v]
    else if v <= Rune2 then [T2 + v / 0x40, Tx + v % 0x40]
    else if v <= Rune3 then [T3 + v / 0x1000, Tx + (v / 0x40) % 0x40, Tx + v % 0x40]
    else [T4 + v / 0x4_0000, Tx + (v / 0x1000) % 0x40, Tx + (v / 0x40) % 0x40, Tx + v % 0x40]
  }

  /** s begins with the encoding of v. */
  predicate StartsWithEncoding(s: seq<Byte>, v: int)
  {
    0 <= v <= Rune4 && |Encoding(v)| <= |s| && s[..|Encoding(v)|] == Encoding(v)
  }

  const Bad := Decoded(Runeerror, 1)

  /** chartorune's case analysis on the first four bytes of the string:
      the lead byte c and the bytes b1, b2, b3 after it.  Each later byte is
      only consulted once the earlier ones have passed their tests. */
  function DecodeBytes(c: Byte, b1: Byte, b2: Byte, b3: Byte): (d: Decoded)
    ensures 1 <= d.len <= UTFmax
    ensures 0 <= d.rune <= Rune4
  {
    if c < Tx then Decoded(c, 1)
    else
      // c1 = str[1] ^ Tx; (c1 & Testx) != 0 means str[1] is not 10xx xxxx.
      if !IsContinuation(b1) then Bad
      else if c < T3 then
        if c < T2 then Bad
        else
          // ((c << Bitx) | c1) & Rune2
          var l := (c - T2) * 0x40 + (b1 - Tx);
          if l <= Rune1 then Bad else Decoded(l, 2)
      else
        if !IsContinuation(b2) then Bad
        else if c < T4 then
          // ((((c << Bitx) | c1) << Bitx) | c2) & Rune3
          var l := ((c - T3) * 0x40 + (b1 - Tx)) * 0x40 + (b2 - Tx);
          if l <= Rune2 then Bad else Decoded(l, 3)
        else
          if !IsContinuation(b3) then Bad
          else if c < T5 then
            // ((((((c << Bitx) | c1) << Bitx) | c2) << Bitx) | c3) & Rune4
            var l := (((c - T4) * 0x40 + (b1 - Tx)) * 0x40 + (b2 - Tx)) * 0x40 + (b3 - Tx);
            if l <= Rune3 then Bad else Decoded(l, 4)
          else Bad
  }

  /** chartorune (rune.cc:68-166) applied to the bytes of a C string: it
      consumes one to four bytes and never more than the string holds, except
      on the empty string, where it reads the terminating NUL and returns rune
      0 with length 1.  DecodeShape below states what it yields. */
  function CharToRune(s: seq<Byte>): (d: Decoded)
    ensures 1 <= d.len <= UTFmax
    ensures d.len <= |s| || (s == [] && d == Decoded(0, 1))
  {
    DecodeBytes(ByteAt(s, 0), ByteAt(s, 1), ByteAt(s, 2), ByteAt(s, 3))
  }

  /** What chartorune yields: a lead byte below 0x80 is itself; a
      well-formed 2-, 3- or 4-byte sequence yields its value; anything else
      is Runeerror with length 1.  Overlong forms are refused, but 4-byte
      values up to 0x1FFFFF (beyond Runemax) and surrogates are accepted. */
  lemma {:induction false} DecodeShape(s: seq<Byte>)
    ensures var d := CharToRune(s);
            && (ByteAt(s, 0) < Runeself ==> d == Decoded(ByteAt(s, 0), 1))
            && (d.len == 1 ==> d.rune == ByteAt(s, 0) < Runeself || d.rune == Runeerror)
            && (d.len > 1 ==> d.len == LeadLength(ByteAt(s, 0)) <= |s|)
            && (forall k :: 1 <= k < d.len ==> IsContinuation(ByteAt(s, k)))
            && 0 <= d.rune <= Rune4
            && (d.len == 2 ==> Rune1 < d.rune <= Rune2)
            && (d.len == 3 ==> Rune2 < d.rune <= Rune3)
            && (d.len == 4 ==> Rune3 < d.rune <= Rune4)
  {
  }

  /** The base-64 digits of a value below 0x1000. */
  lemma {:induction false} Digits2(v: int)
    requires 0 <= v < 0x1000
    ensures v == (v / 0x40) * 0x40 + v % 0x40 && v / 0x40 < 0x40
  {
  }

  /** The base-64 digits of a value below 0x40000. */
  lemma {:induction false} Digits3(v: int)
    requires 0 <= v < 0x4_0000
    ensures v / 0x1000 < 0x40
    ensures v == (v / 0x1000) * 0x1000 + ((v / 0x40) % 0x40) * 0x40 + v % 0x40
  {
    var q, w := v / 0x1000, v % 0x1000;
    assert v == q * 0x1000 + w;
    Digits2(w);
    var m, r := w / 0x40, w % 0x40;
    assert v == (q * 0x40 + m) * 0x40 + r;
    assert v / 0x40 == q * 0x40 + m;
    assert (v / 0x40) % 0x40 == m;
    assert v % 0x40 == r;
  }

  /** The base-64 digits of a value below 0x1000000. */
  lemma {:induction false} Digits4(v: int)
    requires 0 <= v < 0x100_0000
    ensures v / 0x4_0000 < 0x40
    ensures v == (v / 0x4_0000) * 0x4_0000 + ((v / 0x1000) % 0x40) * 0x1000
                 + ((v / 0x40) % 0x40) * 0x40 + v % 0x40
  {
    var q, w := v / 0x4_0000, v % 0x4_0000;
    assert v == q * 0x4_0000 + w;
    Digits3(w);
    var m1, m2, r := w / 0x1000, (w / 0x40) % 0x40, w % 0x40;
    assert v / 0x1000 == q * 0x40 + m1;
    assert (v / 0x1000) % 0x40 == m1;
    assert v / 0x40 == (q * 0x40 + m1) * 0x40 + m2;
    assert (v / 0x40) % 0x40 == m2;
    assert v % 0x40 == r;
  }

  /** chartorune's case analysis undoes each length of Encoding. */
  lemma {:induction false} DecodeBytesOfEncoding(v: int, b2: Byte, b3: Byte)
    requires 0 <= v <= Rune4
    ensures var e := Encoding(v) + [b2, b3, b3];
            DecodeBytes(e[0], e[1], e[2], e[3]) == Decoded(v, |Encoding(v)|)
  {
    if v <= Rune1 {
    } else if v <= Rune2 {
      Digits2(v);
    } else if v <= Rune3 {
      Digits3(v);
    } else {
      Digits4(v);
    }
  }

  /** Decoding the encoding of any 21-bit value gives the value back, with
      the encoding's length, whatever bytes follow. */
  lemma {:induction false} DecodeEncoding(v: int, rest: seq<Byte>)
    requires 0 <= v <= Rune4
    ensures CharToRune(Encoding(v) + rest) == Decoded(v, |Encoding(v)|)
  {
    var e, s := Encoding(v), Encoding(v) + rest;
    var n := |e|;
    var b2, b3 := ByteAt(s, 2), ByteAt(s, 3);
    var padded := e + [b2, b3, b3];
    DecodeBytesOfEncoding(v, b2, b3);
    if n == 1 {
      assert ByteAt(s, 0) == padded[0];
    } else if n == 2 {
      assert ByteAt(s, 0) == padded[0] && ByteAt(s, 1) == padded[1];
    } else if n == 3 {
      assert ByteAt(s, 0) == padded[0] && ByteAt(s, 1) == padded[1] && ByteAt(s, 2) == padded[2];
    } else {
      assert ByteAt(s, 0) == padded[0] && ByteAt(s, 1) == padded[1];
      assert ByteAt(s, 2) == padded[2] && ByteAt(s, 3) == padded[3];
    }
  }

  /** Division by 0x40 recovers the digits a value was assembled from. */
  lemma {:induction false} Assembled(v: int, q: int, r: int)
    requires 0 <= q && 0 <= r < 0x40 && v == q * 0x40 + r
    ensures v / 0x40 == q && v % 0x40 == r
  {
  }

  lemma {:induction false} EncodingOf2(c: Byte, b1: Byte)
    requires T2 <= c < T3 && IsContinuation(b1)
    requires Rune1 < (c - T2) * 0x40 + (b1 - Tx)
    ensures Encoding((c - T2) * 0x40 + (b1 - Tx)) == [c, b1]
  {
    Assembled((c - T2) * 0x40 + (b1 - Tx), c - T2, b1 - Tx);
  }

  lemma {:induction false} EncodingOf3(c: Byte, b1: Byte, b2: Byte)
    requires T3 <= c < T4 && IsContinuation(b1) && IsContinuation(b2)
    requires Rune2 < ((c - T3) * 0x40 + (b1 - Tx)) * 0x40 + (b2 - Tx)
    ensures Encoding(((c - T3) * 0x40 + (b1 - Tx)) * 0x40 + (b2 - Tx)) == [c, b1, b2]
  {
    var hi := (c - T3) * 0x40 + (b1 - Tx);
    var v := hi * 0x40 + (b2 - Tx);
    Assembled(v, hi, b2 - Tx);
    Assembled(hi, c - T3, b1 - Tx);
    assert v / 0x1000 == c - T3;
  }

  lemma {:induction false} EncodingOf4(c: Byte, b1: Byte, b2: Byte, b3: Byte)
    requires T4 <= c < T5 && IsContinuation(b1) && IsContinuation(b2) && IsContinuation(b3)
    requires Rune3 < (((c - T4) * 0x40 + (b1 - Tx)) * 0x40 + (b2 - Tx)) * 0x40 + (b3 - Tx)
    ensures Encoding((((c - T4) * 0x40 + (b1 - Tx)) * 0x40 + (b2 - Tx)) * 0x40 + (b3 - Tx))
            == [c, b1, b2, b3]
  {
    var top := (c - T4) * 0x40 + (b1 - Tx);
    var hi := top * 0x40 + (b2 - Tx);
    var v := hi * 0x40 + (b3 - Tx);
    Assembled(v, hi, b3 - Tx);
    Assembled(hi, top, b2 - Tx);
    Assembled(top, c - T4, b1 - Tx);
    assert v / 0x1000 == top;
    assert v / 0x4_0000 == c - T4;
  }

  /** A multi-byte result of chartorune's case analysis is the value whose
      encoding the bytes spell. */
  lemma {:induction false} EncodingOfDecodedBytes(c: Byte, b1: Byte, b2: Byte, b3: Byte)
    ensures var d := DecodeBytes(c, b1, b2, b3);
            d.len > 1 ==> Encoding(d.rune) == [c, b1, b2, b3][..d.len]
  {
    var d := DecodeBytes(c, b1, b2, b3);
    if d.len == 2 {
      EncodingOf2(c, b1);
    } else if d.len == 3 {
      EncodingOf3(c, b1, b2);
    } else if d.len == 4 {
      EncodingOf4(c, b1, b2, b3);
    }
  }

  /** Every multi-byte decode reads exactly the encoding of the rune it
      returns, so only shortest forms are accepted. */
  lemma {:induction false} DecodedIsEncoding(s: seq<Byte>)
    ensures var d := CharToRune(s);
            d.len > 1 ==> StartsWithEncoding(s, d.rune) && |Encoding(d.rune)| == d.len
  {
    var d := CharToRune(s);
    if d.len > 1 {
      var bytes := [ByteAt(s, 0), ByteAt(s, 1), ByteAt(s, 2), ByteAt(s, 3)];
      EncodingOfDecodedBytes(bytes[0], bytes[1], bytes[2], bytes[3]);
      assert s[..d.len] == bytes[..d.len];
    }
  }

  /** The complete behaviour of chartorune: a byte below 0x80 is itself; a
      byte sequence that begins with the shortest encoding of some value
      0x80..0x1FFFFF decodes to that value and its length; everything else
      is malformed and yields (Runeerror, 1). */
  lemma {:induction false} DecodeCharacterization(s: seq<Byte>)
    ensures var d := CharToRune(s);
            && (ByteAt(s, 0) < Runeself ==> d == Decoded(ByteAt(s, 0), 1))
            && (forall v :: Rune1 < v <= Rune4 && StartsWithEncoding(s, v) ==>
                  d == Decoded(v, |Encoding(v)|))
            && ((ByteAt(s, 0) >= Runeself
                 && forall v :: Rune1 < v <= Rune4 ==> !StartsWithEncoding(s, v)) ==> d == Bad)
  {
    var d := CharToRune(s);
    forall v | Rune1 < v <= Rune4 && StartsWithEncoding(s, v)
      ensures d == Decoded(v, |Encoding(v)|)
    {
      var n := |Encoding(v)|;
      assert s == Encoding(v) + s[n..];
      DecodeEncoding(v, s[n..]);
    }
    DecodedIsEncoding(s);
  }

  /** The unsigned value runetochar tests: a negative Rune converts to a
      value above 0x7FFFFFFF. */
  function Unsigned(r: Rune): (c: nat)
    ensures c < 0x1_0000_0000
    ensures r >= 0 ==> c == r
    ensures r < 0 ==> c > Runemax
  {
    if r < 0 then r + 0x1_0000_0000 else r
  }

  /** The bytes runetochar writes: values above Runemax (negative runes
      included) are written as the encoding of Runeerror. */
  function EncodeRune(r: Rune): seq<Byte>
  {
    var c := Unsigned(r);
    if c > Runemax then Encoding(Runeerror) else Encoding(c)
  }

  /** runetochar writes 1 byte for 0..0x7F, 2 for ..0x7FF, 3 for ..0xFFFF and
      for every out-of-range rune, and 4 otherwise. */
  function EncodedLength(r: Rune): (n: nat)
    ensures n == |EncodeRune(r)|
  {
    if 0 <= r <= Rune1 then 1
    else if 0 <= r <= Rune2 then 2
    else if 0 <= r <= Rune3 || r < 0 || r > Runemax then 3
    else 4
  }

  /** runetochar (rune.cc:168-223): writes the encoding of *rune into str and
      returns the number of bytes written; the rest of str is untouched. */
  method RuneToChar(str: array<Byte>, r: Rune) returns (n: int)
    requires str.Length >= UTFmax
    modifies str
    ensures n == |EncodeRune(r)|
    ensures str[..n] == EncodeRune(r)
    ensures str[n..] == old(str[n..])
  {
    var c := Unsigned(r);
    if c <= Rune1 {
      str[0] := c;
      return 1;
    }
    if c <= Rune2 {
      str[0] := T2 + c / 0x40;
      str[1] := Tx + c % 0x40;
      return 2;
    }
    if c > Runemax {
      c := Runeerror;
    }
    if c <= Rune3 {
      str[0] := T3 + c / 0x1000;
      str[1] := Tx + (c / 0x40) % 0x40;
      str[2] := Tx + c % 0x40;
      return 3;
    }
    str[0] := T4 + c / 0x4_0000;
    str[1] := Tx + (c / 0x1000) % 0x40;
    str[2] := Tx + (c / 0x40) % 0x40;
    str[3] := Tx + c % 0x40;
    return 4;
  }

  /** runelen (rune.cc:225-231): the number of bytes runetochar writes,
      obtained by encoding into a scratch buffer. */
  method RuneLen(r: Rune) returns (n: int)
    ensures n == EncodedLength(r)
    ensures n == 1 <==> 0 <= r <= Rune1
    ensures n == 2 <==> Rune1 < r <= Rune2
    ensures n == 3 <==> Rune2 < r <= Rune3 || r < 0 || r > Runemax
    ensures n == 4 <==> Rune3 < r <= Runemax
  {
    var str := new Byte[10];
    n := RuneToChar(str, r);
  }

  /** Round trip: decoding what runetochar writes for any rune 0..Runemax
      (surrogates included) gives back the rune and the count runetochar
      returned; every other rune comes back as Runeerror. */
  lemma {:induction false} RuneRoundTrip(r: Rune, rest: seq<Byte>)
    ensures 0 <= r <= Runemax ==> CharToRune(EncodeRune(r) + rest) == Decoded(r, |EncodeRune(r)|)
    ensures !(0 <= r <= Runemax) ==> CharToRune(EncodeRune(r) + rest) == Decoded(Runeerror, 3)
  {
    if 0 <= r <= Runemax {
      DecodeEncoding(r, rest);
    } else {
      DecodeEncoding(Runeerror, rest);
    }
  }

  /** fullrune (rune.cc:233-250): whether the n bytes at str hold a whole
      sequence, judged from the lead byte alone. */
  function FullRune(s: seq<Byte>, n: int): (full: bool)
    requires n <= |s|
    ensures full <==> n > 0 && n >= LeadLength(s[0])
  {
    if n > 0 then
      var c := s[0];
      if c < Tx then true
      else if n > 1 then
        if c < T3 then true
        else n > 2 && (c < T4 || n > 3)
      else false
    else false
  }

  /** When fullrune says yes, the bytes after the first n cannot change what
      chartorune returns. */
  lemma {:induction false} FullRuneDecides(s: seq<Byte>, n: int, t: seq<Byte>, u: seq<Byte>)
    requires 0 <= n <= |s| && FullRune(s, n)
    ensures CharToRune(s[..n] + t) == CharToRune(s[..n] + u)
  {
    var a, b := s[..n] + t, s[..n] + u;
    assert ByteAt(a, 0) == ByteAt(b, 0) == s[0];
    var k := LeadLength(s[0]);
    forall i | 0 <= i < k ensures ByteAt(a, i) == ByteAt(b, i) {
      assert a[i] == s[i] == b[i];
    }
  }

  // ---------------------------------------------------------------------
  // Whole strings: utflen and utfrune.

  /** The runes of a byte string, decoded one chartorune step at a time. */
  function Runes(s: seq<Byte>): seq<int>
    decreases |s|
  {
    if s == [] then []
    else
      var d := CharToRune(s);
      [d.rune] + Runes(s[d.len..])
  }

  /** An offset within a suffix, seen from k bytes further left. */
  function ShiftBy(p: Option<nat>, k: nat): Option<nat>
  {
    match p
    case None => None
    case Some(q) => Some(q + k)
  }

  /** The byte offset of the first rune of s equal to c, if any. */
  function FirstRunePos(s: seq<Byte>, c: int): (p: Option<nat>)
    ensures p.Some? ==> p.value < |s|
    decreases |s|
  {
    if s == [] then None
    else
      var d := CharToRune(s);
      if d.rune == c then Some(0)
      else ShiftBy(FirstRunePos(s[d.len..], c), d.len)
  }

  /** The concatenated encodings of a list of runes. */
  function EncodeAll(rs: seq<int>): seq<Byte>
    requires forall i :: 0 <= i < |rs| ==> 0 <= rs[i] <= Runemax
  {
    if rs == [] then [] else Encoding(rs[0]) + EncodeAll(rs[1..])
  }

  /** Decoding the encoding of a list of runes gives back the list. */
  lemma {:induction false} RunesOfEncoding(rs: seq<int>)
    requires forall i :: 0 <= i < |rs| ==> 0 <= rs[i] <= Runemax
    ensures Runes(EncodeAll(rs)) == rs
  {
    if rs != [] {
      var rest := EncodeAll(rs[1..]);
      DecodeEncoding(rs[0], rest);
      assert (Encoding(rs[0]) + rest)[|Encoding(rs[0])|..] == rest;
      RunesOfEncoding(rs[1..]);
    }
  }

  /** The byte offset at which rune j of s begins. */
  function RuneStart(s: seq<Byte>, j: nat): (p: nat)
    requires j < |Runes(s)|
    ensures p < |s|
    decreases |s|
  {
    var d := CharToRune(s);
    if j == 0 then 0 else d.len + RuneStart(s[d.len..], j - 1)
  }

  /** utfrune's search finds nothing exactly when c is not among the runes. */
  lemma {:induction false} FirstRunePosAbsent(s: seq<Byte>, c: int)
    ensures FirstRunePos(s, c).None? <==> c !in Runes(s)
    decreases |s|
  {
    if s != [] {
      var d := CharToRune(s);
      FirstRunePosAbsent(s[d.len..], c);
    }
  }

  /** When rune j is the first occurrence of c, utfrune's search stops at
      the byte where rune j begins. */
  lemma {:induction false} FirstRunePosFindsFirst(s: seq<Byte>, c: int, j: nat)
    requires j < |Runes(s)| && Runes(s)[j] == c && c !in Runes(s)[..j]
    ensures FirstRunePos(s, c) == Some(RuneStart(s, j))
    decreases |s|
  {
    var d := CharToRune(s);
    var rest := Runes(s[d.len..]);
    assert Runes(s) == [d.rune] + rest;
    if j > 0 {
      assert Runes(s)[..j] == [d.rune] + rest[..j - 1];
      assert d.rune != c;
      FirstRunePosFindsFirst(s[d.len..], c, j - 1);
    }
  }

  /** A byte string has a NUL terminator somewhere. */
  predicate HasNul(s: seq<Byte>)
  {
    exists i :: 0 <= i < |s| && s[i] == 0
  }

  /** strlen: the index of the first NUL. */
  function StrLen(s: seq<Byte>): (k: nat)
    requires HasNul(s)
    ensures k < |s| && s[k] == 0
  {
    if s[0] == 0 then 0
    else
      assert HasNul(s[1..]) by {
        var i :| 0 <= i < |s| && s[i] == 0;
        assert s[1..][i - 1] == 0;
      }
      1 + StrLen(s[1..])
  }

  /** StrLen finds the first NUL: every NUL of s is at or after it. */
  lemma {:induction false} StrLenIsFirst(s: seq<Byte>, j: nat)
    requires HasNul(s) && j < |s| && s[j] == 0
    ensures StrLen(s) <= j
  {
    if s[0] != 0 {
      assert s[1..][j - 1] == 0;
      StrLenIsFirst(s[1..], j - 1);
    }
  }

  /** chartorune never reads past a NUL: the bytes after it do not matter. */
  lemma {:induction false} DecodeStopsAtNul(s: seq<Byte>, k: nat)
    requires k < |s| && s[k] == 0
    ensures CharToRune(s) == CharToRune(s[..k])
  {
    var a, b := s, s[..k];
    assert ByteAt(a, k) == 0 == ByteAt(b, k);
    forall i | 0 <= i < k ensures ByteAt(a, i) == ByteAt(b, i) {
    }
    if k >= 4 {
      assert ByteAt(a, 0) == ByteAt(b, 0) && ByteAt(a, 1) == ByteAt(b, 1);
      assert ByteAt(a, 2) == ByteAt(b, 2) && ByteAt(a, 3) == ByteAt(b, 3);
    }
  }

  /** chartorune on an ASCII byte consumes just that byte. */
  lemma {:induction false} AsciiStep(a: seq<Byte>, i: nat)
    requires i < |a| && a[i] < Runeself
    ensures CharToRune(a[i..]) == Decoded(a[i], 1)
  {
    assert ByteAt(a[i..], 0) == a[i];
  }

  /** One chartorune step d at offset i of a string whose NUL is at z: the
      step stays before the NUL, and decoding a[i..z] starts with it. */
  lemma {:induction false} ScanStep(a: seq<Byte>, i: nat, z: nat, d: Decoded)
    requires i < z < |a| && a[z] == 0 && d == CharToRune(a[i..])
    ensures i + d.len <= z
    ensures CharToRune(a[i..z]) == d && a[i..z][d.len..] == a[i + d.len..z]
  {
    DecodeStopsAtNul(a[i..], z - i);
    assert a[i..][..z - i] == a[i..z];
  }

  /** utflen's count after one step. */
  lemma {:induction false} CountStep(a: seq<Byte>, i: nat, z: nat, d: Decoded)
    requires i < z < |a| && a[z] == 0 && d == CharToRune(a[i..])
    ensures i + d.len <= z
    ensures |Runes(a[i..z])| == 1 + |Runes(a[i + d.len..z])|
  {
    ScanStep(a, i, z, d);
  }

  /** utfrune's search after one step: found at i, or continue at i + d.len. */
  lemma {:induction false} SearchStep(a: seq<Byte>, i: nat, z: nat, c: int, d: Decoded)
    requires i < z < |a| && a[z] == 0 && d == CharToRune(a[i..])
    ensures i + d.len <= z
    ensures d.rune == c ==> ShiftBy(FirstRunePos(a[i..z], c), i) == Some(i)
    ensures d.rune != c ==>
              ShiftBy(FirstRunePos(a[i..z], c), i)
              == ShiftBy(FirstRunePos(a[i + d.len..z], c), i + d.len)
  {
    ScanStep(a, i, z, d);
    if d.rune != c {
      FirstRunePosStep(a[i..z], c);
      ShiftTwice(FirstRunePos(a[i + d.len..z], c), d.len, i);
    }
  }

  /** One step of utflen's scan at a byte i before the NUL at z: the count
      n of runes before i, plus those from i to the NUL, stays the total. */
  method Advance(s: array<Byte>, i: nat, ghost z: nat, ghost n: int, ghost total: int) returns (d: Decoded)
    requires i < z < s.Length && s[z] == 0
    requires n + |Runes(s[..z][i..])| == total
    ensures i + d.len <= z && d.len >= 1
    ensures n + 1 + |Runes(s[..z][i + d.len..])| == total
  {
    ghost var a := s[..];
    var c := s[i];
    if c < Runeself {
      AsciiStep(a, i);
      d := Decoded(c, 1);
    } else {
      assert s[i..] == a[i..];
      d := CharToRune(s[i..]);
    }
    CountStep(a, i, z, d);
    assert s[..z][i..] == a[i..z];
    assert s[..z][i + d.len..] == a[i + d.len..z];
  }

  /** The scan stops at the first NUL, which is the one at z. */
  lemma {:induction false} ScanEnd(a: seq<Byte>, i: nat, z: nat)
    requires HasNul(a) && z == StrLen(a) && i <= z && a[i] == 0
    ensures a[..z][i..] == []
  {
    StrLenIsFirst(a, i);
  }

  /** utflen (rune.cc:253-272): the number of runes before the NUL. */
  method UtfLen(s: array<Byte>) returns (n: int)
    requires HasNul(s[..])
    ensures n == |Runes(s[..StrLen(s[..])])|
  {
    ghost var z := StrLen(s[..]);
    ghost var total := |Runes(s[..z])|;
    var i := 0;
    n := 0;
    assert s[..z][i..] == s[..z];
    while s[i] != 0
      invariant 0 <= i <= z
      invariant n + |Runes(s[..z][i..])| == total
      decreases z - i
    {
      var d := Advance(s, i, z, n, total);
      i := i + d.len;
      n := n + 1;
    }
    ScanEnd(s[..], i, z);
  }

  /** strchr: the index of the first byte equal to b, searching up to and
      including the NUL. */
  function StrChr(s: seq<Byte>, b: Byte): (p: Option<nat>)
    requires HasNul(s)
    ensures p.Some? ==> p.value <= StrLen(s) && s[p.value] == b
                        && forall j :: 0 <= j < p.value ==> s[j] != b
    ensures p.None? ==> forall j :: 0 <= j <= StrLen(s) ==> s[j] != b
  {
    if s[0] == b then Some(0)
    else if s[0] == 0 then None
    else
      assert HasNul(s[1..]) by {
        var i :| 0 <= i < |s| && s[i] == 0;
        assert s[1..][i - 1] == 0;
      }
      match StrChr(s[1..], b)
      case None => None
      case Some(q) => Some(q + 1)
  }

  lemma {:induction false} ShiftTwice(p: Option<nat>, j: nat, k: nat)
    ensures ShiftBy(ShiftBy(p, j), k) == ShiftBy(p, j + k)
  {
  }

  /** One step of utfrune's search: when the rune at the front is not c,
      the answer is the answer for the rest of the string, shifted. */
  lemma {:induction false} FirstRunePosStep(t: seq<Byte>, c: int)
    requires t != [] && CharToRune(t).rune != c
    ensures FirstRunePos(t, c) == ShiftBy(FirstRunePos(t[CharToRune(t).len..], c), CharToRune(t).len)
  {
  }

  /** One step of utfrune's search at a byte i before the NUL at z, for a
      rune c of at least Runesync: the answer from i is i itself when the
      decoded rune is c, and otherwise the answer from the next rune. */
  method SearchAdvance(s: array<Byte>, i: nat, c: Rune, ghost z: nat, ghost target: Option<nat>) returns (d: Decoded)
    requires i < z < s.Length && s[z] == 0 && c >= Runesync
    requires target == ShiftBy(FirstRunePos(s[..z][i..], c), i)
    ensures i + d.len <= z && d.len >= 1
    ensures d.rune == c ==> target == Some(i)
    ensures d.rune != c ==> target == ShiftBy(FirstRunePos(s[..z][i + d.len..], c), i + d.len)
  {
    ghost var a := s[..];
    var c1 := s[i];
    if c1 < Runeself {
      // The C code also returns s when c1 == c, which cannot happen here
      // because c >= Runesync > c1.
      AsciiStep(a, i);
      d := Decoded(c1, 1);
    } else {
      assert s[i..] == a[i..];
      d := CharToRune(s[i..]);
    }
    SearchStep(a, i, z, c, d);
    assert s[..z][i..] == a[i..z];
    assert s[..z][i + d.len..] == a[i + d.len..z];
  }

  /** utfrune (rune.cc:274-300): the offset of the first rune equal to c in
      the string, or None (a null pointer).  Below Runesync the search is
      strchr for the byte (char)c, which can also find the NUL itself. */
  method UtfRune(s: array<Byte>, c: Rune) returns (p: Option<nat>)
    requires HasNul(s[..])
    ensures c < Runesync ==> p == StrChr(s[..], c % 0x100)
    ensures c >= Runesync ==> p == FirstRunePos(s[..StrLen(s[..])], c)
  {
    if c < Runesync {
      return StrChr(s[..], c % 0x100);
    }
    p := SearchRune(s, c);
  }

  /** utfrune's scan for a rune c of at least Runesync. */
  method SearchRune(s: array<Byte>, c: Rune) returns (p: Option<nat>)
    requires HasNul(s[..]) && c >= Runesync
    ensures p == FirstRunePos(s[..StrLen(s[..])], c)
  {
    ghost var z := StrLen(s[..]);
    ghost var target := FirstRunePos(s[..z], c);
    var i := 0;
    assert s[..z][i..] == s[..z];
    while s[i] != 0
      invariant 0 <= i <= z
      invariant target == ShiftBy(FirstRunePos(s[..z][i..], c), i)
      decreases z - i
    {
      var d := SearchAdvance(s, i, c, z, target);
      if d.rune == c {
        return Some(i);
      }
      i := i + d.len;
    }
    ScanEnd(s[..], i, z);
    return None;
  }

  // ---------------------------------------------------------------------
  // Bit-level reading of the C expressions, on 8- and 32-bit words.

  /** `(b ^ Tx) & Testx` is zero exactly for continuation bytes, and then
      `b ^ Tx` is the six payload bits. */
  lemma {:induction false} ContinuationTestBits(b: bv8)
    ensures ((b ^ 0x80) & 0xC0 == 0) <==> (0x80 <= b < 0xC0)
    ensures 0x80 <= b < 0xC0 ==> b ^ 0x80 == b - 0x80
  {
  }

  /** The masked assembly of chartorune's 2-byte case equals the arithmetic
      form used in CharToRune. */
  lemma {:induction false} TwoByteAssemblyBits(c: bv32, c1: bv32)
    requires 0xC0 <= c < 0xE0 && c1 < 0x40
    ensures ((c << 6) | c1) & 0x7FF == (c - 0xC0) * 0x40 + c1
  {
  }

  /** runetochar's `T2 | (c >> 6)` and `Tx | (c & Maskx)` equal the
      arithmetic forms used in Encoding. */
  lemma {:induction false} TwoByteEmitBits(c: bv32)
    requires 0x80 <= c <= 0x7FF
    ensures 0xC0 | (c >> 6) == 0xC0 + c / 0x40
    ensures 0x80 | (c & 0x3F) == 0x80 + c % 0x40
  {
  }

  /** The masked assembly of chartorune's 3-byte case (`& Rune3`) equals the
      arithmetic form used in CharToRune. */
  lemma {:induction false} ThreeByteAssemblyBits(c: bv32, c1: bv32, c2: bv32)
    requires 0xE0 <= c < 0xF0 && c1 < 0x40 && c2 < 0x40
    ensures ((((c << 6) | c1) << 6) | c2) & 0xFFFF == ((c - 0xE0) * 0x40 + c1) * 0x40 + c2
  {
  }

  /** The masked assembly of chartorune's 4-byte case (`& Rune4`) equals the
      arithmetic form used in CharToRune. */
  lemma {:induction false} FourByteAssemblyBits(c: bv32, c1: bv32, c2: bv32, c3: bv32)
    requires 0xF0 <= c < 0xF8 && c1 < 0x40 && c2 < 0x40 && c3 < 0x40
    ensures ((((((c << 6) | c1) << 6) | c2) << 6) | c3) & 0x1F_FFFF
         == (((c - 0xF0) * 0x40 + c1) * 0x40 + c2) * 0x40 + c3
  {
  }

  /** runetochar's three bytes `T3 | (c >> 12)`, `Tx | ((c >> 6) & Maskx)`
      and `Tx | (c & Maskx)` equal the arithmetic forms used in Encoding. */
  lemma {:induction false} ThreeByteEmitBits(c: bv32)
    requires 0x800 <= c <= 0xFFFF
    ensures 0xE0 | (c >> 12) == 0xE0 + c / 0x1000
    ensures 0x80 | ((c >> 6) & 0x3F) == 0x80 + (c / 0x40) % 0x40
    ensures 0x80 | (c & 0x3F) == 0x80 + c % 0x40
  {
  }

  /** runetochar's four bytes `T4 | (c >> 18)`, `Tx | ((c >> 12) & Maskx)`,
      `Tx | ((c >> 6) & Maskx)` and `Tx | (c & Maskx)` equal the arithmetic
      forms used in Encoding, for every rune up to Runemax. */
  lemma {:induction false} FourByteEmitBits(c: bv32)
    requires 0x1_0000 <= c <= 0x10_FFFF
    ensures 0xF0 | (c >> 18) == 0xF0 + c / 0x4_0000
    ensures 0x80 | ((c >> 12) & 0x3F) == 0x80 + (c / 0x1000) % 0x40
    ensures 0x80 | ((c >> 6) & 0x3F) == 0x80 + (c / 0x40) % 0x40
    ensures 0x80 | (c & 0x3F) == 0x80 + c % 0x40
  {
  }
}
