/** The few Python string operations the control script relies on: `str.isspace`,
    `str.lower`, `str.split()[-1]`, `str.strip`, the substring test `in`, the one-digit
    `isdigit`/`int` of the oracle reply and the decimal rendering of an option index. */
module Text {
  import opened Wrappers

  /** The code points for which Python's `str.isspace` holds; `split()` and `strip()`
      without arguments break on exactly these. */
  predicate IsSpace(c: char) {
    var n := c as int;
    (9 <= n <= 13) || (28 <= n <= 32) || n == 0x85 || n == 0xA0 || n == 0x1680
    || (0x2000 <= n <= 0x200A) || n == 0x2028 || n == 0x2029 || n == 0x202F
    || n == 0x205F || n == 0x3000
  }

  predicate AllSpace(s: string) {
    forall k :: 0 <= k < |s| ==> IsSpace(s[k])
  }

  /** An ASCII decimal digit. */
  predicate IsDigit(c: char) {
    '0' <= c <= '9'
  }

  function DigitValue(c: char): (d: nat)
    requires IsDigit(c)
    ensures d < 10
  {
    c as int - '0' as int
  }

  function DigitChar(d: nat): (c: char)
    requires d < 10
    ensures IsDigit(c) && DigitValue(c) == d
  {
    ('0' as int + d) as char
  }

  // ---------------------------------------------------------------------------
  // Lower-casing

  predicate IsUpper(c: char) {
    'A' <= c <= 'Z'
  }

  function LowerChar(c: char): (l: char)
    ensures !IsUpper(l)
    ensures IsUpper(c) ==> l as int == c as int + 32
    ensures !IsUpper(c) ==> l == c
  {
    if IsUpper(c) then (c as int + 32) as char else c
  }

  /** `str.lower()`, restricted to the ASCII letters. */
  function Lower(s: string): (r: string)
    ensures |r| == |s|
    ensures forall k :: 0 <= k < |s| ==> r[k] == LowerChar(s[k])
  {
    if s == [] then [] else [LowerChar(s[0])] + Lower(s[1..])
  }

  /** Lower-casing twice is lower-casing once, so lower-casing the operator's input
      and the detector's labels once each is enough. */
  lemma LowerIdempotent(s: string)
    ensures Lower(Lower(s)) == Lower(s)
  {
    var l := Lower(s);
    assert forall k :: 0 <= k < |l| ==> LowerChar(l[k]) == l[k];
  }

  // ---------------------------------------------------------------------------
  // Where the words of a string begin and end

  /** The position just after the last non-space character (0 if there is none). */
  function TrimmedEnd(s: string): (e: nat)
    ensures e <= |s|
    ensures forall k :: e <= k < |s| ==> IsSpace(s[k])
    ensures e == 0 || !IsSpace(s[e - 1])
  {
    if s == [] then 0
    else if IsSpace(s[|s| - 1]) then TrimmedEnd(s[..|s| - 1])
    else |s|
  }

  /** The number of leading space characters. */
  function LeadingSpaces(s: string): (b: nat)
    ensures b <= |s|
    ensures forall k :: 0 <= k < b ==> IsSpace(s[k])
    ensures b == |s| || !IsSpace(s[b])
  {
    if s == [] || !IsSpace(s[0]) then 0 else 1 + LeadingSpaces(s[1..])
  }

  /** The start of the run of non-space characters that ends at `e`. */
  function WordStart(s: string, e: nat): (b: nat)
    requires e <= |s|
    ensures b <= e
    ensures forall k :: b <= k < e ==> !IsSpace(s[k])
    ensures b == 0 || IsSpace(s[b - 1])
    decreases e
  {
    if e == 0 || IsSpace(s[e - 1]) then e else WordStart(s, e - 1)
  }

  // ---------------------------------------------------------------------------
  // split()[-1]

  /** `s.split()[-1]`: the last maximal run of non-space characters, or `None` where
      Python raises `IndexError` because `split()` returned no words. */
  function LastToken(s: string): Option<string> {
    var e := TrimmedEnd(s);
    if e == 0 then None else Some(s[WordStart(s, e)..e])
  }

  /** `t` is the last whitespace-delimited word of `s`. */
  ghost predicate IsLastToken(s: string, t: string) {
    exists i, j :: 0 <= i < j <= |s| && s[i..j] == t
      && (i == 0 || IsSpace(s[i - 1]))
      && (forall k :: i <= k < j ==> !IsSpace(s[k]))
      && (forall k :: j <= k < |s| ==> IsSpace(s[k]))
  }

  /** `split()` yields no word exactly when the string is all white space. */
  lemma LastTokenNone(s: string)
    ensures LastToken(s) == None <==> AllSpace(s)
  {
    var e := TrimmedEnd(s);
    if e != 0 {
      assert !IsSpace(s[e - 1]);
    }
  }

  /** `LastToken` finds the last word, and the last word is the only thing it can find. */
  lemma LastTokenSome(s: string, t: string)
    ensures LastToken(s) == Some(t) <==> IsLastToken(s, t)
  {
    var e := TrimmedEnd(s);
    if LastToken(s) == Some(t) {
      var b := WordStart(s, e);
      assert s[b..e] == t;
      assert IsLastToken(s, t);
    }
    if IsLastToken(s, t) {
      var i, j :| 0 <= i < j <= |s| && s[i..j] == t
        && (i == 0 || IsSpace(s[i - 1]))
        && (forall k :: i <= k < j ==> !IsSpace(s[k]))
        && (forall k :: j <= k < |s| ==> IsSpace(s[k]));
      assert !IsSpace(s[j - 1]);
      assert j == e;
      var b := WordStart(s, e);
      assert i == b;
    }
  }

  /** Every word `LastToken` returns is non-empty and free of white space. */
  lemma LastTokenIsWord(s: string)
    requires LastToken(s).Some?
    ensures |LastToken(s).value| > 0
    ensures forall k :: 0 <= k < |LastToken(s).value| ==> !IsSpace(LastToken(s).value[k])
  {
    var e := TrimmedEnd(s);
    var b := WordStart(s, e);
    assert !IsSpace(s[e - 1]);
    assert LastToken(s).value == s[b..e];
  }

  // ---------------------------------------------------------------------------
  // strip()

  /** `r` is `s` with the `b` leading and all trailing characters removed, and those are white space. */
  ghost predicate StrippedAt(s: string, r: string, b: int) {
    0 <= b && b + |r| <= |s| && s[b..b + |r|] == r
    && (forall k :: 0 <= k < b ==> IsSpace(s[k]))
    && (forall k :: b + |r| <= k < |s| ==> IsSpace(s[k]))
  }

  /** `str.strip()`: the string without its leading and trailing white space. */
  function Strip(s: string): (r: string)
    ensures r == [] <==> AllSpace(s)
    ensures r != [] ==> !IsSpace(r[0]) && !IsSpace(r[|r| - 1])
    ensures exists b :: StrippedAt(s, r, b)
  {
    var e := TrimmedEnd(s);
    var b := LeadingSpaces(s[..e]);
    assert e > 0 ==> !IsSpace(s[e - 1]);
    assert StrippedAt(s, s[b..e], b);
    s[b..e]
  }

  // ---------------------------------------------------------------------------
  // The substring test `needle in haystack`

  predicate IsPrefix(needle: string, haystack: string) {
    |needle| <= |haystack| && haystack[..|needle|] == needle
  }

  /** Python's `needle in haystack` for strings. */
  predicate Contains(haystack: string, needle: string) {
    IsPrefix(needle, haystack) || (haystack != [] && Contains(haystack[1..], needle))
  }

  /** The needle occurs in the haystack starting at offset `i`. */
  ghost predicate OccursAt(haystack: string, needle: string, i: int) {
    0 <= i && i + |needle| <= |haystack| && haystack[i..i + |needle|] == needle
  }

  /** `Contains` holds exactly when the needle occurs at some offset of the haystack. */
  lemma {:induction false} ContainsAt(haystack: string, needle: string)
    ensures Contains(haystack, needle) <==> exists i :: OccursAt(haystack, needle, i)
  {
    if IsPrefix(needle, haystack) {
      assert OccursAt(haystack, needle, 0);
    }
    if haystack != [] {
      var tail := haystack[1..];
      ContainsAt(tail, needle);
      if exists i :: OccursAt(haystack, needle, i) {
        var i :| OccursAt(haystack, needle, i);
        if i > 0 {
          assert tail[i - 1..i - 1 + |needle|] == haystack[i..i + |needle|];
          assert OccursAt(tail, needle, i - 1);
        }
      }
      if Contains(tail, needle) {
        var i :| OccursAt(tail, needle, i);
        assert haystack[i + 1..i + 1 + |needle|] == tail[i..i + |needle|];
        assert OccursAt(haystack, needle, i + 1);
      }
    } else {
      if exists i :: OccursAt(haystack, needle, i) {
        var i :| OccursAt(haystack, needle, i);
        assert needle == [];
      }
    }
  }

  // ---------------------------------------------------------------------------
  // Decimal rendering of an index, as in f"Option {i}:"

  function NatToString(n: nat): (s: string)
    ensures |s| > 0
    ensures forall k :: 0 <= k < |s| ==> IsDigit(s[k])
    ensures s[0] == '0' ==> n == 0
    ensures |s| > 1 ==> s[0] != '0'
  {
    if n < 10 then [DigitChar(n)] else NatToString(n / 10) + [DigitChar(n % 10)]
  }

  /** The value of a string of decimal digits. */
  function DecimalValue(s: string): nat
    requires forall k :: 0 <= k < |s| ==> IsDigit(s[k])
  {
    if s == [] then 0 else 10 * DecimalValue(s[..|s| - 1]) + DigitValue(s[|s| - 1])
  }

  /** Reading the rendered index back gives the index: distinct options get distinct labels. */
  lemma {:induction false} DecimalRoundTrip(n: nat)
    ensures DecimalValue(NatToString(n)) == n
  {
    var s := NatToString(n);
    if n >= 10 {
      DecimalRoundTrip(n / 10);
      assert s[..|s| - 1] == NatToString(n / 10);
    }
  }
}
