/**
 * The few Go standard-library string routines that the image service's
 * request negotiation relies on: strings.Split with a one-character
 * separator, strings.TrimSpace, strings.HasPrefix and the decimal
 * formatting of strconv.Itoa and fmt's %d verb.
 *
 * Strings are sequences of runes; UTF-8 encoding is not modelled.
 */
module GoStrings {

  // ---------------------------------------------------------------------
  // Prefixes
  // ---------------------------------------------------------------------

  /** strings.HasPrefix */
  predicate HasPrefix(s: string, prefix: string) {
    |prefix| <= |s| && s[..|prefix|] == prefix
  }

  // ---------------------------------------------------------------------
  // Splitting on a separator
  // ---------------------------------------------------------------------

  /** The position of the first occurrence of c in s. */
  function FirstIndex(s: string, c: char): (i: nat)
    requires c in s
    ensures i < |s| && s[i] == c && c !in s[..i]
  {
    if s[0] == c then 0
    else
      assert c in s[1..] by { assert s == [s[0]] + s[1..]; }
      var j := FirstIndex(s[1..], c);
      assert s[..j + 1] == [s[0]] + s[1..][..j];
      j + 1
  }

  /** Glues non-empty list of pieces back together, separator between neighbours. */
  function Join(pieces: seq<string>, sep: char): string
    requires |pieces| >= 1
  {
    if |pieces| == 1 then pieces[0] else pieces[0] + [sep] + Join(pieces[1..], sep)
  }

  /**
   * strings.Split(s, string(sep)): the pieces of s between occurrences of
   * sep, in order. An empty s gives one empty piece, as in Go.
   */
  function Split(s: string, sep: char): (pieces: seq<string>)
    ensures |pieces| >= 1
    ensures forall k :: 0 <= k < |pieces| ==> sep !in pieces[k]
    ensures Join(pieces, sep) == s
    decreases |s|
  {
    if sep !in s then [s]
    else
      var i := FirstIndex(s, sep);
      var rest := Split(s[i + 1..], sep);
      var pieces := [s[..i]] + rest;
      assert pieces[1..] == rest;
      assert s == s[..i] + [sep] + s[i + 1..];
      pieces
  }

  /**
   * Split is the inverse of Join: a list of separator-free pieces is
   * recovered exactly from the joined string. Together with Split's own
   * postcondition this makes Split the unique separator-free decomposition.
   */
  lemma {:induction false} SplitJoin(pieces: seq<string>, sep: char)
    requires |pieces| >= 1
    requires forall k :: 0 <= k < |pieces| ==> sep !in pieces[k]
    ensures Split(Join(pieces, sep), sep) == pieces
  {
    if |pieces| > 1 {
      var rest := pieces[1..];
      var tail := Join(rest, sep);
      var s := pieces[0] + [sep] + tail;
      assert Join(pieces, sep) == s;
      FirstIndexAfterPiece(pieces[0], sep, tail);
      assert s[..|pieces[0]|] == pieces[0];
      assert s[|pieces[0]| + 1..] == tail;
      assert Split(s, sep) == [pieces[0]] + Split(tail, sep);
      assert forall k :: 0 <= k < |rest| ==> rest[k] == pieces[k + 1];
      SplitJoin(rest, sep);
      assert pieces == [pieces[0]] + rest;
    }
  }

  /** In piece + [sep] + tail with a separator-free piece, the first separator ends the piece. */
  lemma FirstIndexAfterPiece(piece: string, sep: char, tail: string)
    requires sep !in piece
    ensures sep in piece + [sep] + tail
    ensures FirstIndex(piece + [sep] + tail, sep) == |piece|
  {
    var s := piece + [sep] + tail;
    assert s[|piece|] == sep;
    var i := FirstIndex(s, sep);
    assert forall k :: 0 <= k < |piece| ==> s[k] == piece[k];
    assert forall k :: 0 <= k < i ==> s[..i][k] == s[k];
  }

  /** The number of pieces is one more than the number of separators. */
  function Count(s: string, c: char): nat {
    if s == [] then 0 else (if s[0] == c then 1 else 0) + Count(s[1..], c)
  }

  lemma {:induction false} CountConcat(a: string, b: string, c: char)
    ensures Count(a + b, c) == Count(a, c) + Count(b, c)
  {
    if a != [] {
      assert (a + b)[1..] == a[1..] + b;
      CountConcat(a[1..], b, c);
    } else {
      assert a + b == b;
    }
  }

  lemma {:induction false} SplitCount(s: string, sep: char)
    ensures |Split(s, sep)| == Count(s, sep) + 1
    decreases |s|
  {
    if sep !in s {
      CountAbsent(s, sep);
    } else {
      var i := FirstIndex(s, sep);
      assert s == s[..i] + ([sep] + s[i + 1..]);
      CountConcat(s[..i], [sep] + s[i + 1..], sep);
      CountAbsent(s[..i], sep);
      assert ([sep] + s[i + 1..])[1..] == s[i + 1..];
      SplitCount(s[i + 1..], sep);
    }
  }

  lemma {:induction false} CountAbsent(s: string, c: char)
    requires c !in s
    ensures Count(s, c) == 0
  {
    if s != [] {
      assert c !in s[1..] by { assert forall k :: 0 <= k < |s| - 1 ==> s[1..][k] == s[k + 1]; }
      CountAbsent(s[1..], c);
    }
  }

  // ---------------------------------------------------------------------
  // Trimming white space
  // ---------------------------------------------------------------------

  /** unicode.IsSpace: the runes with the Unicode White_Space property. */
  predicate IsSpace(c: char) {
    var u := c as int;
    (0x09 <= u <= 0x0D) || u == 0x20 || u == 0x85 || u == 0xA0 || u == 0x1680
    || (0x2000 <= u <= 0x200A) || u == 0x2028 || u == 0x2029 || u == 0x202F
    || u == 0x205F || u == 0x3000
  }

  /** Neither end of s is white space. */
  predicate Trimmed(s: string) {
    s == [] || (!IsSpace(s[0]) && !IsSpace(s[|s| - 1]))
  }

  /** The end of the run of white space that starts at i. */
  function SkipSpace(s: string, i: nat): (j: nat)
    requires i <= |s|
    ensures i <= j <= |s|
    ensures forall k :: i <= k < j ==> IsSpace(s[k])
    ensures j == |s| || !IsSpace(s[j])
    decreases |s| - i
  {
    if i == |s| || !IsSpace(s[i]) then i else SkipSpace(s, i + 1)
  }

  /** The start of the run of white space that ends at j, going no further back than lo. */
  function SkipSpaceBack(s: string, lo: nat, j: nat): (i: nat)
    requires lo <= j <= |s|
    ensures lo <= i <= j
    ensures forall k :: i <= k < j ==> IsSpace(s[k])
    ensures i == lo || !IsSpace(s[i - 1])
    decreases j
  {
    if j == lo || !IsSpace(s[j - 1]) then j else SkipSpaceBack(s, lo, j - 1)
  }

  /**
   * strings.TrimSpace, that is TrimRightFunc(TrimLeftFunc(s, unicode.IsSpace),
   * unicode.IsSpace): the infix of s left once all leading and then all
   * trailing white space is removed.
   */
  function TrimSpace(s: string): (r: string)
    ensures |r| <= |s|
  {
    var a := SkipSpace(s, 0);
    s[a..SkipSpaceBack(s, a, |s|)]
  }

  /** TrimSpace removes white space only at the ends, and all of it. */
  lemma TrimSpaceTrims(s: string)
    ensures Trimmed(TrimSpace(s)) && TrimOf(TrimSpace(s), s)
  {
    var a := SkipSpace(s, 0);
    var b := SkipSpaceBack(s, a, |s|);
    assert TrimBounds(s[a..b], s, a, b);
  }

  /** r is s less some white space at its start and some at its end. */
  ghost predicate TrimOf(r: string, s: string) {
    exists a, b :: TrimBounds(r, s, a, b)
  }

  /** r is s[a..b] and everything outside [a, b) is white space. */
  ghost predicate TrimBounds(r: string, s: string, a: int, b: int) {
    && 0 <= a <= b <= |s| && r == s[a..b]
    && (forall k :: 0 <= k < a ==> IsSpace(s[k]))
    && (forall k :: b <= k < |s| ==> IsSpace(s[k]))
  }

  // ---------------------------------------------------------------------
  // Decimal numerals
  // ---------------------------------------------------------------------

  predicate IsDigit(c: char) {
    '0' <= c <= '9'
  }

  predicate AllDigits(s: string) {
    forall k :: 0 <= k < |s| ==> IsDigit(s[k])
  }

  function DigitChar(d: nat): (c: char)
    requires d < 10
    ensures IsDigit(c)
  {
    ('0' as int + d) as char
  }

  function DigitValue(c: char): (d: nat)
    requires IsDigit(c)
    ensures d < 10 && DigitChar(d) == c
  {
    (c as int - '0' as int)
  }

  /** strconv.Itoa on a non-negative value: the shortest decimal numeral. */
  function Itoa(n: nat): (r: string)
    ensures |r| >= 1 && AllDigits(r)
    ensures |r| > 1 ==> r[0] != '0'
  {
    if n < 10 then [DigitChar(n)] else Itoa(n / 10) + [DigitChar(n % 10)]
  }

  /** fmt's %d verb and strconv.Itoa on any integer: a minus sign for negative values. */
  function FormatInt(n: int): string {
    if n < 0 then "-" + Itoa(-n) else Itoa(n)
  }

  /** The value of a decimal numeral (the empty numeral is 0). */
  function ParseDecimal(s: string): nat
    requires AllDigits(s)
  {
    if s == [] then 0 else ParseDecimal(s[..|s| - 1]) * 10 + DigitValue(s[|s| - 1])
  }

  /** Reading back what Itoa wrote gives the number. */
  lemma {:induction false} ItoaRoundTrip(n: nat)
    ensures ParseDecimal(Itoa(n)) == n
  {
    if n >= 10 {
      var r := Itoa(n);
      assert r[..|r| - 1] == Itoa(n / 10);
      ItoaRoundTrip(n / 10);
    }
  }

  /** A numeral with a non-zero leading digit denotes a positive number. */
  lemma {:induction false} LeadingDigitPositive(s: string)
    requires |s| >= 1 && AllDigits(s) && s[0] != '0'
    ensures ParseDecimal(s) > 0
  {
    if |s| > 1 {
      LeadingDigitPositive(s[..|s| - 1]);
    }
  }

  /** Conversely, every canonical numeral is what Itoa writes for its value. */
  lemma {:induction false} ParseDecimalRoundTrip(s: string)
    requires |s| >= 1 && AllDigits(s)
    requires |s| > 1 ==> s[0] != '0'
    ensures Itoa(ParseDecimal(s)) == s
  {
    var t, d := s[..|s| - 1], s[|s| - 1];
    if |s| == 1 {
      assert ParseDecimal(s) == DigitValue(d);
    } else {
      LeadingDigitPositive(t);
      ParseDecimalRoundTrip(t);
      assert s == t + [d];
    }
  }
}
