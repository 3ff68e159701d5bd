/** Strings as sequences of characters: ASCII case mapping, substring search,
    and fixed-width decimal digits. */
module Text {

  // ---------------------------------------------------------------------------
  // Case mapping (ASCII letters; every other character maps to itself)
  // ---------------------------------------------------------------------------

  function LowerChar(c: char): char {
    if 'A' <= c <= 'Z' then (c as int + 32) as char else c
  }

  function UpperChar(c: char): char {
    if 'a' <= c <= 'z' then (c as int - 32) as char else c
  }

  /** `s.toLowerCase()` */
  function Lower(s: string): (r: string)
    ensures |r| == |s|
  {
    seq(|s|, i requires 0 <= i < |s| => LowerChar(s[i]))
  }

  /** `s.toUpperCase()` */
  function Upper(s: string): (r: string)
    ensures |r| == |s|
  {
    seq(|s|, i requires 0 <= i < |s| => UpperChar(s[i]))
  }

  predicate IsUpper(s: string) {
    forall i :: 0 <= i < |s| ==> UpperChar(s[i]) == s[i]
  }

  /** Upper-casing yields an upper-case string, so applying it twice changes nothing. */
  lemma UpperIsUpper(s: string)
    ensures IsUpper(Upper(s))
    ensures Upper(Upper(s)) == Upper(s)
  {
  }

  /** An upper-case string is its own upper-case form. */
  lemma UpperOfUpper(s: string)
    requires IsUpper(s)
    ensures Upper(s) == s
  {
  }

  lemma LowerIdempotent(s: string)
    ensures Lower(Lower(s)) == Lower(s)
  {
  }

  /** Lower-casing commutes with taking a suffix. */
  lemma LowerSuffix(s: string, k: nat)
    requires k <= |s|
    ensures Lower(s)[k..] == Lower(s[k..])
  {
  }

  // ---------------------------------------------------------------------------
  // Substring search: `hay.includes(needle)`
  // ---------------------------------------------------------------------------

  predicate StartsWith(s: string, prefix: string) {
    |prefix| <= |s| && s[..|prefix|] == prefix
  }

  predicate Contains(hay: string, needle: string)
    decreases |hay|
  {
    StartsWith(hay, needle) || (|hay| > 0 && Contains(hay[1..], needle))
  }

  /** `needle` occurs in `hay` at position `i`. */
  predicate OccursAt(hay: string, needle: string, i: int) {
    0 <= i && i + |needle| <= |hay| && hay[i..i + |needle|] == needle
  }

  /** The recursive search finds exactly the needles that occur at some position. */
  lemma {:induction false} ContainsIff(hay: string, needle: string)
    ensures Contains(hay, needle) <==> exists i :: OccursAt(hay, needle, i)
    decreases |hay|
  {
    if Contains(hay, needle) {
      if StartsWith(hay, needle) {
        assert OccursAt(hay, needle, 0);
      } else {
        ContainsIff(hay[1..], needle);
        var i :| OccursAt(hay[1..], needle, i);
        assert hay[1..][i..i + |needle|] == hay[i + 1..i + 1 + |needle|];
        assert OccursAt(hay, needle, i + 1);
      }
    }
    if i :| OccursAt(hay, needle, i) {
      if i == 0 {
        assert StartsWith(hay, needle);
      } else {
        assert hay[1..][i - 1..i - 1 + |needle|] == hay[i..i + |needle|];
        assert OccursAt(hay[1..], needle, i - 1);
        ContainsIff(hay[1..], needle);
      }
    }
  }

  /** A needle whose first character is missing from a prefix of `hay` can only
      occur after that prefix. */
  lemma {:induction false} SkipPrefix(hay: string, needle: string, k: nat)
    requires |needle| > 0 && k <= |hay|
    requires needle[0] !in hay[..k]
    requires !Contains(hay[k..], needle)
    ensures !Contains(hay, needle)
  {
    if k > 0 {
      assert hay[0] in hay[..k];
      assert hay[1..][..k - 1] == hay[1..k];
      assert hay[1..][k - 1..] == hay[k..];
      SkipPrefix(hay[1..], needle, k - 1);
    }
  }

  /** A needle with a character that `hay` lacks does not occur in `hay`. */
  lemma {:induction false} MissingCharNoMatch(hay: string, needle: string, j: nat)
    requires j < |needle| && needle[j] !in hay
    ensures !Contains(hay, needle)
  {
    ContainsIff(hay, needle);
    forall i | 0 <= i && i + |needle| <= |hay|
      ensures !OccursAt(hay, needle, i)
    {
      assert hay[i..i + |needle|][j] == hay[i + j];
      assert hay[i + j] in hay;
    }
  }

  /** `s[a..b]` holds neither case of the lower-case letter `c`. */
  predicate LacksLetter(s: string, a: int, b: int, c: char) {
    0 <= a <= b <= |s| && forall i :: a <= i < b ==> s[i] != c && s[i] != UpperChar(c)
  }

  /** Skipping a stretch `hay[a..b]` that holds neither case of the needle's
      first letter: no match in the lower-cased text from `a` on if none from `b` on. */
  lemma LowerSkip(hay: string, needle: string, a: nat, b: nat)
    requires |needle| > 0 && 'a' <= needle[0] <= 'z' && LacksLetter(hay, a, b, needle[0])
    requires !Contains(Lower(hay)[b..], needle)
    ensures !Contains(Lower(hay)[a..], needle)
  {
    var w := Lower(hay)[a..][..b - a];
    forall k | 0 <= k < |w|
      ensures w[k] != needle[0]
    {
      assert w[k] == LowerChar(hay[a + k]);
    }
    assert Lower(hay)[a..][b - a..] == Lower(hay)[b..];
    SkipPrefix(Lower(hay)[a..], needle, b - a);
  }

  /** One position: no match at `a` and none after it. */
  lemma LowerStep(hay: string, needle: string, a: nat)
    requires a < |hay|
    requires !StartsWith(Lower(hay)[a..], needle) && !Contains(Lower(hay)[a + 1..], needle)
    ensures !Contains(Lower(hay)[a..], needle)
  {
    assert Lower(hay)[a..][1..] == Lower(hay)[a + 1..];
  }

  /** A position whose `j`-th character differs from the needle's, once
      lower-cased: no match there, and none after it means none from it on. */
  lemma LowerMismatch(hay: string, needle: string, a: nat, j: nat)
    requires a + j < |hay| && j < |needle|
    requires LowerChar(hay[a + j]) != needle[j]
    requires !Contains(Lower(hay)[a + 1..], needle)
    ensures !Contains(Lower(hay)[a..], needle)
  {
    assert Lower(hay)[a..][j] == LowerChar(hay[a + j]);
    LowerStep(hay, needle, a);
  }

  /** No match in a lower-cased tail that lacks both cases of the needle's first letter. */
  lemma LowerTail(hay: string, needle: string, a: nat)
    requires |needle| > 0 && 'a' <= needle[0] <= 'z' && LacksLetter(hay, a, |hay|, needle[0])
    ensures !Contains(Lower(hay)[a..], needle)
  {
    assert !Contains(Lower(hay)[|hay|..], needle);
    LowerSkip(hay, needle, a, |hay|);
  }

  // ---------------------------------------------------------------------------
  // Decimal digits
  // ---------------------------------------------------------------------------

  function DigitChar(d: int): char
    requires 0 <= d < 10
  {
    ('0' as int + d) as char
  }

  predicate IsDigit(c: char) {
    '0' <= c <= '9'
  }

  predicate AllDigits(s: string) {
    forall i :: 0 <= i < |s| ==> IsDigit(s[i])
  }

  function DigitValue(c: char): int
    requires IsDigit(c)
  {
    c as int - '0' as int
  }

  function Pow10(w: nat): (r: nat)
    ensures r >= 1
  {
    if w == 0 then 1 else 10 * Pow10(w - 1)
  }

  /** The `w` lowest decimal digits of `n`, most significant first, zero-padded. */
  function FixedDigits(n: nat, w: nat): (r: string)
    ensures |r| == w
    ensures AllDigits(r)
  {
    if w == 0 then [] else FixedDigits(n / 10, w - 1) + [DigitChar(n % 10)]
  }

  /** The value of a string of decimal digits. */
  function ParseDigits(s: string): (r: nat)
    requires AllDigits(s)
    ensures r < Pow10(|s|)
  {
    if |s| == 0 then 0 else 10 * ParseDigits(s[..|s| - 1]) + DigitValue(s[|s| - 1])
  }

  /** Reading back `w` fixed digits gives the number, when it fits in `w` digits. */
  lemma {:induction false} ParseFixedDigits(n: nat, w: nat)
    requires n < Pow10(w)
    ensures ParseDigits(FixedDigits(n, w)) == n
  {
    if w > 0 {
      var s := FixedDigits(n, w);
      assert s[..|s| - 1] == FixedDigits(n / 10, w - 1);
      ParseFixedDigits(n / 10, w - 1);
    }
  }

  /** `n.toString()` for a non-negative integer. */
  function ToDecimal(n: nat): (r: string)
    ensures |r| >= 1 && AllDigits(r)
  {
    if n < 10 then [DigitChar(n)] else ToDecimal(n / 10) + [DigitChar(n % 10)]
  }

  /** `s.padStart(w, c)`: prepend copies of `c` until the length is at least `w`. */
  function PadStart(s: string, w: nat, c: char): (r: string)
    ensures |r| == if |s| >= w then |s| else w
    ensures r[|r| - |s|..] == s
    ensures forall i :: 0 <= i < |r| - |s| ==> r[i] == c
  {
    if |s| >= w then s else seq(w - |s|, _ => c) + s
  }

  /** Zero-padding the shortest decimal form of `n` to `w` digits gives the
      fixed-width form, for every `n` that fits in `w` digits. */
  lemma {:induction false} PadDecimalIsFixed(n: nat, w: nat)
    requires 1 <= w && n < Pow10(w)
    ensures PadStart(ToDecimal(n), w, '0') == FixedDigits(n, w)
  {
    if n < 10 {
      FixedDigitsOfDigit(n, w);
    } else {
      PadDecimalIsFixed(n / 10, w - 1);
      var t := ToDecimal(n / 10);
      assert |t| <= w - 1;
      assert PadStart(ToDecimal(n), w, '0') == PadStart(t, w - 1, '0') + [DigitChar(n % 10)];
    }
  }

  /** A one-digit number is zeros followed by that digit. */
  lemma {:induction false} FixedDigitsOfDigit(n: nat, w: nat)
    requires 1 <= w && n < 10
    ensures FixedDigits(n, w) == seq(w - 1, _ => '0') + [DigitChar(n)]
  {
    if w > 1 {
      FixedDigitsOfZero(w - 1);
    }
  }

  lemma {:induction false} FixedDigitsOfZero(w: nat)
    ensures FixedDigits(0, w) == seq(w, _ => '0')
  {
    if w > 0 {
      FixedDigitsOfZero(w - 1);
    }
  }
}
