/**
  The formatted-input operations the parsers rely on: `std::istringstream >> std::string`
  (skip white space, read a maximal run of non-space characters) and
  `std::istringstream >> unsigned` (skip white space, read a maximal run of decimal
  digits, fail when there is none or when the value does not fit in 32 bits).
  A stream is a string together with a read position.
*/
module Extraction {
  import opened Wrappers

  const UINT32_MAX: nat := 0xFFFF_FFFF

  /** The C++ `unsigned` type on the platforms the monitor runs on. */
  type uint32 = x: int | 0 <= x <= UINT32_MAX

  /** `isspace` in the "C" locale: blank, \t, \n, \v, \f and \r. */
  predicate IsSpace(c: char) { c == ' ' || '\t' <= c <= '\r' }

  predicate IsDigit(c: char) { '0' <= c <= '9' }

  predicate AllDigits(s: string) { forall k | 0 <= k < |s| :: IsDigit(s[k]) }

  predicate AllSpace(s: string) { forall k | 0 <= k < |s| :: IsSpace(s[k]) }

  predicate NoSpace(s: string) { forall k | 0 <= k < |s| :: !IsSpace(s[k]) }

  /** The first position at or after `i` that is not white space. */
  function SkipSpace(s: string, i: nat): (j: nat)
    requires i <= |s|
    ensures i <= j <= |s|
    ensures forall k | i <= k < j :: IsSpace(s[k])
    ensures j < |s| ==> !IsSpace(s[j])
    decreases |s| - i
  {
    if i < |s| && IsSpace(s[i]) then SkipSpace(s, i + 1) else i
  }

  /** The first position at or after `i` that is white space (or the end). */
  function WordEnd(s: string, i: nat): (j: nat)
    requires i <= |s|
    ensures i <= j <= |s|
    ensures forall k | i <= k < j :: !IsSpace(s[k])
    ensures j < |s| ==> IsSpace(s[j])
    decreases |s| - i
  {
    if i < |s| && !IsSpace(s[i]) then WordEnd(s, i + 1) else i
  }

  /** White space, then anything not starting with white space: skipping stops right after the white space. */
  lemma SkipSpaceOver(pre: string, post: string)
    requires AllSpace(pre) && (post == [] || !IsSpace(post[0]))
    ensures SkipSpace(pre + post, 0) == |pre|
  {
    var s := pre + post;
    assert forall k | 0 <= k < |pre| :: s[k] == pre[k];
    if post != [] {
      assert s[|pre|] == post[0];
    }
  }

  /** A run of digits, then anything not starting with a digit: the run ends right after the digits. */
  lemma DigitsEndOver(pre: string, digits: string, post: string)
    requires AllDigits(digits) && (post == [] || !IsDigit(post[0]))
    ensures DigitsEnd(pre + digits + post, |pre|) == |pre| + |digits|
  {
    var s := pre + digits + post;
    assert forall k | 0 <= k < |digits| :: s[|pre| + k] == digits[k];
    if post != [] {
      assert s[|pre| + |digits|] == post[0];
    }
  }

  /** The first position at or after `i` that is not a decimal digit (or the end). */
  function DigitsEnd(s: string, i: nat): (j: nat)
    requires i <= |s|
    ensures i <= j <= |s|
    ensures forall k | i <= k < j :: IsDigit(s[k])
    ensures j < |s| ==> !IsDigit(s[j])
    decreases |s| - i
  {
    if i < |s| && IsDigit(s[i]) then DigitsEnd(s, i + 1) else i
  }

  function DigitValue(c: char): (v: nat)
    requires IsDigit(c)
    ensures v < 10
  {
    c as int - '0' as int
  }

  function DigitChar(v: nat): (c: char)
    requires v < 10
    ensures IsDigit(c) && DigitValue(c) == v
  {
    ('0' as int + v) as char
  }

  /** The number a run of decimal digits denotes. */
  function Value(d: string): nat
    requires AllDigits(d)
    decreases |d|
  {
    if d == [] then 0 else Value(d[..|d| - 1]) * 10 + DigitValue(d[|d| - 1])
  }

  /** The decimal rendering of `n`: the id an `sbatch` reply carries. */
  function Decimal(n: nat): (d: string)
    ensures 0 < |d| && AllDigits(d)
    decreases n
  {
    if n < 10 then [DigitChar(n)] else Decimal(n / 10) + [DigitChar(n % 10)]
  }

  lemma {:induction false} ValueOfDecimal(n: nat)
    ensures Value(Decimal(n)) == n
    decreases n
  {
    if n >= 10 {
      ValueOfDecimal(n / 10);
      var d := Decimal(n);
      assert d[..|d| - 1] == Decimal(n / 10);
    }
  }

  /**
    `stream >> word`: fails when only white space is left; otherwise yields the
    next maximal run of non-space characters and the position just after it.
    ReadWordSpec states this in full.
  */
  function ReadWord(s: string, i: nat): (r: Option<(string, nat)>)
    requires i <= |s|
    ensures r.Some? ==> i < r.value.1 <= |s| && 0 < |r.value.0| <= r.value.1 - i
  {
    var j := SkipSpace(s, i);
    if j == |s| then None else var k := WordEnd(s, j); Some((s[j..k], k))
  }

  lemma ReadWordSpec(s: string, i: nat)
    requires i <= |s|
    ensures var r := ReadWord(s, i);
            (r.None? <==> SkipSpace(s, i) == |s|) &&
            (r.None? <==> AllSpace(s[i..])) &&
            (r.Some? ==>
               var (w, k) := r.value;
               i + |w| <= k <= |s| && 0 < |w| && NoSpace(w) && w == s[k - |w|..k] &&
               k - |w| == SkipSpace(s, i) && AllSpace(s[i..k - |w|]) && (k < |s| ==> IsSpace(s[k])))
  {
    var j := SkipSpace(s, i);
    AllSpaceSlice(s, i, j);
    if j < |s| {
      assert !AllSpace(s[i..]) by { assert s[i..][j - i] == s[j]; }
      var k := WordEnd(s, j);
      assert ReadWord(s, i) == Some((s[j..k], k));
      assert k - |s[j..k]| == j;
      assert NoSpace(s[j..k]) by {
        forall m | 0 <= m < k - j ensures !IsSpace(s[j..k][m]) { assert s[j..k][m] == s[j + m]; }
      }
    } else {
      assert s[i..] == s[i..j];
    }
  }

  /** The word read contains no white space (the part of ReadWordSpec most callers need). */
  lemma WordHasNoSpace(s: string, i: nat)
    requires i <= |s|
    ensures ReadWord(s, i).Some? ==> NoSpace(ReadWord(s, i).value.0)
  {
    var j := SkipSpace(s, i);
    if j < |s| {
      var k := WordEnd(s, j);
      forall m | 0 <= m < k - j ensures !IsSpace(s[j..k][m]) { assert s[j..k][m] == s[j + m]; }
    }
  }

  /** The characters SkipSpace passes over are all white space. */
  lemma AllSpaceSlice(s: string, i: nat, j: nat)
    requires i <= j <= |s| && j == SkipSpace(s, i)
    ensures AllSpace(s[i..j])
  {
    forall m | 0 <= m < j - i ensures IsSpace(s[i..j][m]) { assert s[i..j][m] == s[i + m]; }
  }

  /**
    `stream >> unsigned`: fails when the next non-space character is not a digit
    or when the digit run denotes a value above UINT32_MAX; otherwise yields the
    value and the position just after the digits (a non-digit may follow at once).
    ReadUnsignedSpec states this in full.
  */
  function ReadUnsigned(s: string, i: nat): (r: Option<(uint32, nat)>)
    requires i <= |s|
    ensures r.Some? ==> i < r.value.1 <= |s|
  {
    var j := SkipSpace(s, i);
    var k := DigitsEnd(s, j);
    if k == j then
      None
    else
      var v := Value(s[j..k]);
      if v > UINT32_MAX then None else Some((v, k))
  }

  lemma ReadUnsignedSpec(s: string, i: nat)
    requires i <= |s|
    ensures var r := ReadUnsigned(s, i);
            var j := SkipSpace(s, i);
            (r.Some? ==> var (v, k) := r.value; j < k == DigitsEnd(s, j) && v == Value(s[j..k])) &&
            (r.None? <==> j == |s| || !IsDigit(s[j]) || Value(s[j..DigitsEnd(s, j)]) > UINT32_MAX)
  {
  }

  /** The white-space separated words of `s` from position `i` on. */
  function Words(s: string, i: nat): (ws: seq<string>)
    requires i <= |s|
    ensures forall k | 0 <= k < |ws| :: 0 < |ws[k]| && NoSpace(ws[k])
    decreases |s| - i
  {
    ReadWordSpec(s, i);
    match ReadWord(s, i)
    case None => []
    case Some((w, k)) => [w] + Words(s, k)
  }

  /** When the next word is all digits, reading an unsigned consumes exactly that word. */
  lemma UnsignedOfDigitWord(s: string, i: nat)
    requires i <= |s| && ReadWord(s, i).Some? && AllDigits(ReadWord(s, i).value.0)
    ensures var (w, k) := ReadWord(s, i).value;
            ReadUnsigned(s, i) == if Value(w) <= UINT32_MAX then Some((Value(w), k)) else None
  {
    ReadWordSpec(s, i);
    ReadUnsignedSpec(s, i);
    var (w, k) := ReadWord(s, i).value;
    var j := SkipSpace(s, i);
    assert forall m | j <= m < k :: IsDigit(s[m]) by {
      forall m | j <= m < k ensures IsDigit(s[m]) { assert s[m] == w[m - j]; }
    }
    assert k < |s| ==> !IsDigit(s[k]);
    assert DigitsEnd(s, j) == k;
    assert s[j..k] == w;
  }

  /**
    When the next word starts with digits and goes on with something else, reading
    an unsigned takes only the leading digits and stops inside the word.
  */
  lemma UnsignedOfMixedWord(s: string, i: nat, w: string, k: nat)
    requires i <= |s| && ReadWord(s, i) == Some((w, k))
    requires IsDigit(w[0]) && !AllDigits(w)
    ensures 0 < DigitsEnd(w, 0) < |w|
    ensures ReadUnsigned(s, i) ==
              if Value(w[..DigitsEnd(w, 0)]) <= UINT32_MAX
              then Some((Value(w[..DigitsEnd(w, 0)]), SkipSpace(s, i) + DigitsEnd(w, 0)))
              else None
  {
    WordAt(s, i, w, k);
    var j, d := SkipSpace(s, i), DigitsEnd(w, 0);
    DigitsInWord(s, j, k, w, d);
    UnsignedAt(s, i, j + d, w[..d]);
  }

  /** A word that was read is the slice from the first non-space position to the end of the word. */
  lemma WordAt(s: string, i: nat, w: string, k: nat)
    requires i <= |s| && ReadWord(s, i) == Some((w, k))
    ensures SkipSpace(s, i) < k == WordEnd(s, SkipSpace(s, i)) <= |s| && w == s[SkipSpace(s, i)..k]
  {
  }

  /** Where reading an unsigned stops inside the next word, the next word read is the rest of that word. */
  lemma RestOfMixedWord(s: string, i: nat, w: string, k: nat, d: nat)
    requires i <= |s| && ReadWord(s, i) == Some((w, k)) && d < |w|
    ensures SkipSpace(s, i) + d <= |s| && ReadWord(s, SkipSpace(s, i) + d) == Some((w[d..], k))
  {
    var j := SkipSpace(s, i);
    assert k == WordEnd(s, j) && w == s[j..k];
    RestOfWord(s, j, k, w, d);
  }

  /** Reading an unsigned where the white space is followed by the digits `digits`, ending at `e`. */
  lemma UnsignedAt(s: string, i: nat, e: nat, digits: string)
    requires i <= |s| && 0 < |digits| && AllDigits(digits)
    requires e == DigitsEnd(s, SkipSpace(s, i)) && s[SkipSpace(s, i)..e] == digits
    ensures ReadUnsigned(s, i) == if Value(digits) <= UINT32_MAX then Some((Value(digits), e)) else None
  {
  }

  /** The word `w` from `j` to `k` opens with digits but is not all digits: its digits end inside it. */
  lemma DigitsInWord(s: string, j: nat, k: nat, w: string, d: nat)
    requires j < k <= |s| && w == s[j..k] && IsDigit(w[0]) && !AllDigits(w) && d == DigitsEnd(w, 0)
    ensures 0 < d < |w| && AllDigits(w[..d]) && DigitsEnd(s, j) == j + d && s[j..j + d] == w[..d]
  {
    forall m | j <= m < j + d
      ensures IsDigit(s[m])
    {
      assert s[m] == w[m - j];
    }
    assert s[j + d] == w[d];
    assert s[j..j + d] == w[..d];
  }

  /** Reading from inside the word that runs from `j` to `k` yields the rest of that word. */
  lemma RestOfWord(s: string, j: nat, k: nat, w: string, d: nat)
    requires j <= |s| && k == WordEnd(s, j) && w == s[j..k] && d < |w|
    ensures ReadWord(s, j + d) == Some((w[d..], k))
  {
    assert SkipSpace(s, j + d) == j + d;
    assert WordEnd(s, j + d) == k;
    assert s[j + d..k] == w[d..];
  }

  /** When the next word does not start with a digit, reading an unsigned fails. */
  lemma UnsignedOfOtherWord(s: string, i: nat)
    requires i <= |s|
    requires ReadWord(s, i).None? || !IsDigit(ReadWord(s, i).value.0[0])
    ensures ReadUnsigned(s, i).None?
  {
    ReadWordSpec(s, i);
    ReadUnsignedSpec(s, i);
    if ReadWord(s, i).Some? {
      var (w, k) := ReadWord(s, i).value;
      assert s[SkipSpace(s, i)] == w[0];
    }
  }
}
