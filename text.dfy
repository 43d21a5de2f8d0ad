/**
 * The string handling the presenters and the store rely on: Foundation's
 * `trimmingCharacters(in: .whitespacesAndNewlines)`, substring containment
 * (the `CONTAINS` of a fetch predicate) and decimal rendering of an id
 * inside an error message.
 */
module Text {

  /**
   * Membership in `CharacterSet.whitespacesAndNewlines`: the Unicode
   * separators (general categories Zs, Zl and Zp), the tab and the line
   * and page controls U+000A to U+000D, and NEXT LINE U+0085.
   */
  predicate IsWhitespaceOrNewline(c: char) {
    || '\U{0009}' <= c <= '\U{000D}'
    || c == '\U{0020}'
    || c == '\U{0085}'
    || c == '\U{00A0}'
    || c == '\U{1680}'
    || '\U{2000}' <= c <= '\U{200A}'
    || c == '\U{2028}'
    || c == '\U{2029}'
    || c == '\U{202F}'
    || c == '\U{205F}'
    || c == '\U{3000}'
  }

  /** Length of the longest prefix of `s` made of whitespace only. */
  function LeadingCount(s: string): (n: nat)
    ensures n <= |s|
    ensures forall i :: 0 <= i < n ==> IsWhitespaceOrNewline(s[i])
    ensures n == |s| || !IsWhitespaceOrNewline(s[n])
  {
    if s == [] || !IsWhitespaceOrNewline(s[0]) then 0 else 1 + LeadingCount(s[1..])
  }

  /** Length of the longest suffix of `s` made of whitespace only. */
  function TrailingCount(s: string): (n: nat)
    ensures n <= |s|
    ensures forall i :: |s| - n <= i < |s| ==> IsWhitespaceOrNewline(s[i])
    ensures n == |s| || !IsWhitespaceOrNewline(s[|s| - 1 - n])
  {
    if s == [] || !IsWhitespaceOrNewline(s[|s| - 1]) then 0
    else 1 + TrailingCount(s[..|s| - 1])
  }

  /**
   * `s.trimmingCharacters(in: .whitespacesAndNewlines)`: `s` without its
   * whitespace prefix and suffix. The result is the slice of `s` that
   * starts at the first non-whitespace character and ends at the last one,
   * and it is empty exactly when `s` is all whitespace.
   */
  function Trim(s: string): (r: string)
    ensures LeadingCount(s) + |r| <= |s|
    ensures r == s[LeadingCount(s)..LeadingCount(s) + |r|]
    ensures forall i :: LeadingCount(s) + |r| <= i < |s| ==> IsWhitespaceOrNewline(s[i])
    ensures r == [] <==> forall i :: 0 <= i < |s| ==> IsWhitespaceOrNewline(s[i])
    ensures r != [] ==> !IsWhitespaceOrNewline(r[0]) && !IsWhitespaceOrNewline(r[|r| - 1])
  {
    var lead := LeadingCount(s);
    if lead == |s| then []
    else
      var trail := TrailingCount(s);
      assert !IsWhitespaceOrNewline(s[lead]);
      s[lead..|s| - trail]
  }

  /** `s.trimmingCharacters(in: .whitespacesAndNewlines).isEmpty`. */
  predicate IsBlank(s: string)
    ensures IsBlank(s) <==> forall i :: 0 <= i < |s| ==> IsWhitespaceOrNewline(s[i])
  {
    Trim(s) == []
  }

  /** Trimming twice trims nothing more. */
  lemma TrimIdempotent(s: string)
    ensures Trim(Trim(s)) == Trim(s)
  {
    var t := Trim(s);
    if t != [] {
      assert LeadingCount(t) == 0;
      assert TrailingCount(t) == 0;
    }
  }

  /** Whitespace around a string does not change whether it is blank. */
  lemma BlankPadded(s: string, pad: string)
    requires forall i :: 0 <= i < |pad| ==> IsWhitespaceOrNewline(pad[i])
    ensures IsBlank(pad + s + pad) <==> IsBlank(s)
  {
    var padded := pad + s + pad;
    if IsBlank(s) {
      forall i | 0 <= i < |padded|
        ensures IsWhitespaceOrNewline(padded[i])
      {
        if i < |pad| {
          assert padded[i] == pad[i];
        } else if i < |pad| + |s| {
          assert padded[i] == s[i - |pad|];
        } else {
          assert padded[i] == pad[i - |pad| - |s|];
        }
      }
    }
    if IsBlank(padded) {
      forall i | 0 <= i < |s|
        ensures IsWhitespaceOrNewline(s[i])
      {
        assert s[i] == padded[i + |pad|];
      }
    }
  }

  /**
   * Foundation's `NSString` containment: an empty needle is contained in
   * nothing; otherwise `needle` occurs as a contiguous block of `hay`.
   */
  predicate Contains(hay: string, needle: string) {
    && |needle| > 0
    && exists i :: 0 <= i <= |hay| && OccursAt(hay, needle, i)
  }

  /**
   * A non-empty string is found wherever it is written: in `before + s +
   * after` for any `before` and `after`, so in particular in itself.
   */
  lemma ContainsInfix(before: string, s: string, after: string)
    requires s != []
    ensures Contains(before + s + after, s)
  {
    var hay := before + s + after;
    assert hay[|before|..|before| + |s|] == s;
    assert OccursAt(hay, s, |before|);
  }

  /** `needle` occupies `hay` from offset `i` on. */
  predicate OccursAt(hay: string, needle: string, i: int) {
    0 <= i && i + |needle| <= |hay| && hay[i..i + |needle|] == needle
  }

  function DigitChar(d: nat): (c: char)
    requires d < 10
    ensures '0' <= c <= '9'
    ensures c as int - '0' as int == d
  {
    (48 + d) as char
  }

  /** The number a string of decimal digits spells, most significant digit first. */
  function DigitsValue(s: string): int
    decreases |s|
  {
    if s == [] then 0 else 10 * DigitsValue(s[..|s| - 1]) + (s[|s| - 1] as int - '0' as int)
  }

  /** The number an optional minus sign followed by decimal digits spells. */
  function DecimalValue(s: string): int {
    if s != [] && s[0] == '-' then -DigitsValue(s[1..]) else DigitsValue(s)
  }

  /** Decimal digits of `n`, most significant first, without leading zeros. */
  function NatToDecimal(n: nat): (r: string)
    ensures |r| >= 1
    ensures forall i :: 0 <= i < |r| ==> '0' <= r[i] <= '9'
    ensures |r| > 1 ==> r[0] != '0'
    ensures DigitsValue(r) == n
    decreases n
  {
    if n < 10 then
      [DigitChar(n)]
    else
      var front := NatToDecimal(n / 10);
      var r := front + [DigitChar(n % 10)];
      assert r[..|r| - 1] == front;
      r
  }

  /**
   * Swift's string interpolation of an `Int64`: a minus sign for a negative
   * number, then the digits of its magnitude; reading it back gives `n`.
   */
  function IntToDecimal(n: int): (r: string)
    ensures |r| >= 1
    ensures n < 0 <==> r[0] == '-'
    ensures forall i :: (if n < 0 then 1 else 0) <= i < |r| ==> '0' <= r[i] <= '9'
    ensures DecimalValue(r) == n
  {
    if n < 0 then
      var r := "-" + NatToDecimal(-n);
      assert r[1..] == NatToDecimal(-n);
      r
    else NatToDecimal(n)
  }
}
