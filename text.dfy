/** The Go string primitives the services rely on, over Dafny strings
    (sequences of Unicode scalar values): `len` (a byte count),
    `strings.TrimSpace`, `strings.Trim`, `strings.EqualFold`, `strings.Split`,
    `strings.Join`, `strconv.ParseUint(s, 10, 32)` and the decimal rendering of
    `fmt.Sprintf("%d", n)`. */
module Text {

  import opened Wrappers

  // ---------------------------------------------------------------------
  // len: the number of bytes of the UTF-8 encoding

  /** Bytes in the UTF-8 encoding of one scalar value. */
  function Utf8Width(c: char): (w: nat)
    ensures 1 <= w <= 4
    ensures w == 1 <==> c as int < 0x80
  {
    if c as int < 0x80 then 1
    else if c as int < 0x800 then 2
    else if c as int < 0x1_0000 then 3
    else 4
  }

  /** Go's `len(s)`. */
  function ByteLen(s: string): nat
  {
    if s == [] then 0 else Utf8Width(s[0]) + ByteLen(s[1..])
  }

  /** A string has at least as many bytes as characters, and at most four
      bytes per character. */
  lemma {:induction false} ByteLenBounds(s: string)
    ensures |s| <= ByteLen(s) <= 4 * |s|
  {
    if s != [] {
      ByteLenBounds(s[1..]);
    }
  }

  /** On ASCII text `len` counts characters. */
  lemma {:induction false} ByteLenAscii(s: string)
    requires forall i :: 0 <= i < |s| ==> s[i] as int < 0x80
    ensures ByteLen(s) == |s|
  {
    if s != [] {
      ByteLenAscii(s[1..]);
    }
  }

  /** `len` is additive over concatenation. */
  lemma {:induction false} ByteLenConcat(a: string, b: string)
    ensures ByteLen(a + b) == ByteLen(a) + ByteLen(b)
  {
    if a == [] {
      assert a + b == b;
    } else {
      assert (a + b)[1..] == a[1..] + b;
      ByteLenConcat(a[1..], b);
    }
  }

  // ---------------------------------------------------------------------
  // Trimming

  /** Go's `unicode.IsSpace`. */
  predicate IsSpace(c: char)
  {
    || c == '\t' || c == '\n' || c == '\U{B}' || c == '\U{C}' || c == '\r' || c == ' '
    || c == '\U{85}' || c == '\U{A0}' || c == '\U{1680}'
    || ('\U{2000}' <= c <= '\U{200A}')
    || c == '\U{2028}' || c == '\U{2029}' || c == '\U{202F}' || c == '\U{205F}'
    || c == '\U{3000}'
  }

  /** Every character of s is cut. */
  predicate AllCut(s: string, cut: char -> bool)
  {
    forall i :: 0 <= i < |s| ==> cut(s[i])
  }

  /** s without its longest prefix of cut characters. */
  function TrimLeft(s: string, cut: char -> bool): (r: string)
    ensures |r| <= |s| && r == s[|s| - |r|..]
    ensures AllCut(s[..|s| - |r|], cut)
    ensures r == [] || !cut(r[0])
  {
    if s != [] && cut(s[0]) then TrimLeft(s[1..], cut) else s
  }

  /** s without its longest suffix of cut characters. */
  function TrimRight(s: string, cut: char -> bool): (r: string)
    ensures |r| <= |s| && r == s[..|r|]
    ensures AllCut(s[|r|..], cut)
    ensures r == [] || !cut(r[|r| - 1])
  {
    if s != [] && cut(s[|s| - 1]) then TrimRight(s[..|s| - 1], cut) else s
  }

  /** Go's `strings.TrimFunc`: no longer than s, and neither end of the
      result is a cut character. */
  function Trim(s: string, cut: char -> bool): (r: string)
    ensures |r| <= |s|
    ensures r == [] || (!cut(r[0]) && !cut(r[|r| - 1]))
  {
    TrimRight(TrimLeft(s, cut), cut)
  }

  /** Go's `strings.TrimSpace`: no longer than s, and starting and ending
      with a character that is not white space. */
  function TrimSpace(s: string): (r: string)
    ensures |r| <= |s|
    ensures r == [] || (!IsSpace(r[0]) && !IsSpace(r[|r| - 1]))
  {
    Trim(s, IsSpace)
  }

  /** Trimming leaves nothing exactly when every character is cut. */
  lemma {:induction false} TrimEmptyIffAllCut(s: string, cut: char -> bool)
    ensures Trim(s, cut) == [] <==> AllCut(s, cut)
  {
    var l := TrimLeft(s, cut);
    assert l[0..] == l;
    assert s[..|s|] == s;
  }

  /** `strings.TrimSpace(s) == ""` holds exactly for the all-blank strings. */
  lemma BlankIffAllSpace(s: string)
    ensures TrimSpace(s) == [] <==> AllCut(s, IsSpace)
  {
    TrimEmptyIffAllCut(s, IsSpace);
  }

  // ---------------------------------------------------------------------
  // Case folding

  /** Simple case folding restricted to ASCII letters. */
  function FoldAscii(c: char): (f: char)
    ensures !('A' <= f <= 'Z')
    ensures 'a' <= c <= 'z' ==> f == c
  {
    if 'A' <= c <= 'Z' then (c as int + 32) as char else c
  }

  /** Go's `strings.EqualFold`, for text whose only cased letters are ASCII. */
  predicate EqualFold(a: string, b: string): (r: bool)
    ensures a == b ==> r
    ensures r ==> |a| == |b|
  {
    |a| == |b| && forall i :: 0 <= i < |a| ==> FoldAscii(a[i]) == FoldAscii(b[i])
  }

  /** EqualFold is an equivalence: reflexive, symmetric and transitive. */
  lemma EqualFoldEquivalence(a: string, b: string, c: string)
    ensures EqualFold(a, a)
    ensures EqualFold(a, b) ==> EqualFold(b, a)
    ensures EqualFold(a, b) && EqualFold(b, c) ==> EqualFold(a, c)
  {
  }

  // ---------------------------------------------------------------------
  // Decimal numbers

  predicate IsDigit(c: char)
  {
    '0' <= c <= '9'
  }

  predicate AllDigits(s: string)
  {
    forall i :: 0 <= i < |s| ==> IsDigit(s[i])
  }

  function DigitChar(d: nat): (c: char)
    requires d < 10
    ensures IsDigit(c) && c as int - '0' as int == d
  {
    ('0' as int + d) as char
  }

  /** The number a string of decimal digits denotes. */
  function DigitsValue(s: string): nat
    requires AllDigits(s)
  {
    if s == [] then 0
    else DigitsValue(s[..|s| - 1]) * 10 + (s[|s| - 1] as int - '0' as int)
  }

  /** `fmt.Sprintf("%d", n)` / `strconv.FormatUint(n, 10)` for n >= 0. */
  function Decimal(n: nat): (s: string)
    ensures s != [] && AllDigits(s)
    ensures DigitsValue(s) == n
    ensures s[0] != '0' || n == 0
  {
    if n < 10 then [DigitChar(n)]
    else
      var front := Decimal(n / 10);
      assert (front + [DigitChar(n % 10)])[..|front|] == front;
      front + [DigitChar(n % 10)]
  }

  /** The decimal rendering is injective. */
  lemma DecimalInjective(m: nat, n: nat)
    requires Decimal(m) == Decimal(n)
    ensures m == n
  {
  }

  /** Decimal renderings never contain a separator or blank. */
  lemma DecimalHasNo(n: nat, d: char)
    requires !IsDigit(d)
    ensures d !in Decimal(n)
  {
  }

  const MAX_UINT32: nat := 0xFFFF_FFFF

  /** `strconv.ParseUint(s, 10, 32)`: an optional result, None standing for
      the syntax and range errors. Leading zeros are accepted; signs,
      blanks and underscores are not. */
  function ParseUint32(s: string): (r: Option<nat>)
    ensures r.Some? ==> r.value <= MAX_UINT32
  {
    if s != [] && AllDigits(s) && DigitsValue(s) <= MAX_UINT32 then Some(DigitsValue(s))
    else None
  }

  /** Parsing inverts rendering for every 32-bit value. */
  lemma ParseDecimal(n: nat)
    requires n <= MAX_UINT32
    ensures ParseUint32(Decimal(n)) == Some(n)
  {
  }

  /** Parsing rejects the empty string and anything holding a non-digit. */
  lemma ParseRejects(s: string, i: nat)
    requires s == [] || (i < |s| && !IsDigit(s[i]))
    ensures ParseUint32(s) == None
  {
  }

  // ---------------------------------------------------------------------
  // Split and Join

  /** Go's `strings.Split(s, string(d))`: the pieces between separators, so
      the empty string splits into one empty piece. */
  function Split(s: string, d: char): (parts: seq<string>)
    ensures |parts| >= 1
    ensures forall k :: 0 <= k < |parts| ==> d !in parts[k]
  {
    if s == [] then [[]]
    else
      var rest := Split(s[1..], d);
      if s[0] == d then [[]] + rest
      else [[s[0]] + rest[0]] + rest[1..]
  }

  /** Go's `strings.Join`. */
  function Join(parts: seq<string>, sep: string): string
  {
    if |parts| == 0 then []
    else if |parts| == 1 then parts[0]
    else parts[0] + sep + Join(parts[1..], sep)
  }

  /** Splitting and joining with the same separator gives the string back. */
  lemma {:induction false} JoinSplit(s: string, d: char)
    ensures Join(Split(s, d), [d]) == s
  {
    if s != [] {
      var rest := Split(s[1..], d);
      JoinSplit(s[1..], d);
      if s[0] == d {
        assert Split(s, d)[1..] == rest;
      } else if |rest| == 1 {
        assert Join(Split(s, d), [d]) == [s[0]] + rest[0];
      } else {
        assert Split(s, d)[1..] == rest[1..];
        assert Join(rest, [d]) == rest[0] + [d] + Join(rest[1..], [d]);
      }
    }
  }

  /** A string without the separator splits into itself. */
  lemma {:induction false} SplitNoSeparator(s: string, d: char)
    requires d !in s
    ensures Split(s, d) == [s]
  {
    if s != [] {
      assert s[0] in s;
      assert forall c :: c in s[1..] ==> c in s;
      SplitNoSeparator(s[1..], d);
      assert [s[0]] + s[1..] == s;
    }
  }

  /** Splitting at one separator: the pieces of both sides, side by side. */
  lemma {:induction false} SplitAround(a: string, b: string, d: char)
    ensures Split(a + [d] + b, d) == Split(a, d) + Split(b, d)
  {
    if a == [] {
      assert [] + [d] + b == [d] + b;
      assert ([d] + b)[1..] == b;
    } else {
      assert (a + [d] + b)[0] == a[0];
      assert (a + [d] + b)[1..] == a[1..] + [d] + b;
      SplitAround(a[1..], b, d);
    }
  }
}
