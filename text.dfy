/**
 * The JavaScript primitives the page calls: `String.prototype.trim`,
 * `Array.prototype.join`, the regular-expression class `\d`, and the decimal
 * rendering of an integer inside a template literal. The page never splits
 * a string; `Split` and `IndexOf` are here only to count the lines of a
 * joined text.
 */
module Text {

  /** The code points `trim` removes: ECMAScript WhiteSpace (TAB, VT, FF, ZWNBSP
      and every Space_Separator) and LineTerminator (LF, CR, LS, PS). */
  predicate IsJsWhitespace(c: char) {
    c == '\t' || c == '\U{000B}' || c == '\U{000C}' || c == '\U{FEFF}'
    || c == ' ' || c == '\U{00A0}' || c == '\U{1680}' || ('\U{2000}' <= c <= '\U{200A}')
    || c == '\U{202F}' || c == '\U{205F}' || c == '\U{3000}'
    || c == '\n' || c == '\r' || c == '\U{2028}' || c == '\U{2029}'
  }

  /** The regular-expression class `\d`: ASCII digits only. */
  predicate IsAsciiDigit(c: char) {
    '0' <= c <= '9'
  }

  ghost predicate AllWhitespace(s: string) {
    forall k :: 0 <= k < |s| ==> IsJsWhitespace(s[k])
  }

  /** Neither end of `t` is white space (the empty string qualifies). */
  ghost predicate HasTrimmedEnds(t: string) {
    t == [] || (!IsJsWhitespace(t[0]) && !IsJsWhitespace(t[|t| - 1]))
  }

  /** Reference definition of trimming: `t` is what is left of `s` once a
      white-space prefix and a white-space suffix are cut off, and neither
      end of `t` is white space. */
  ghost predicate IsTrimOf(t: string, s: string) {
    exists i, j :: 0 <= i <= j <= |s| && t == s[i..j]
      && AllWhitespace(s[..i]) && AllWhitespace(s[j..]) && HasTrimmedEnds(t)
  }

  /** Number of white-space characters at the start of `s`. */
  function LeadingWhitespace(s: string): (n: nat)
    ensures n <= |s|
    ensures forall k :: 0 <= k < n ==> IsJsWhitespace(s[k])
    ensures n < |s| ==> !IsJsWhitespace(s[n])
  {
    if s != [] && IsJsWhitespace(s[0]) then 1 + LeadingWhitespace(s[1..]) else 0
  }

  /** Number of white-space characters at the end of `s`. */
  function TrailingWhitespace(s: string): (n: nat)
    ensures n <= |s|
    ensures forall k :: |s| - n <= k < |s| ==> IsJsWhitespace(s[k])
    ensures n < |s| ==> !IsJsWhitespace(s[|s| - 1 - n])
  {
    if s != [] && IsJsWhitespace(s[|s| - 1]) then 1 + TrailingWhitespace(s[..|s| - 1]) else 0
  }

  /** `s.trim()`. */
  function Trim(s: string): (t: string)
    ensures IsTrimOf(t, s)
  {
    var a := LeadingWhitespace(s);
    var b := TrailingWhitespace(s[a..]);
    TrailingWhitespaceOfSuffix(s, a, b);
    TrimCut(s, a, |s| - b);
    s[a..|s| - b]
  }

  /** The trailing white space of a suffix, counted in the whole string. */
  lemma TrailingWhitespaceOfSuffix(s: string, a: nat, b: nat)
    requires a + b <= |s|
    requires forall k :: |s| - a - b <= k < |s| - a ==> IsJsWhitespace(s[a..][k])
    requires b < |s| - a ==> !IsJsWhitespace(s[a..][|s| - a - 1 - b])
    ensures forall k :: |s| - b <= k < |s| ==> IsJsWhitespace(s[k])
    ensures a < |s| - b ==> !IsJsWhitespace(s[|s| - b - 1])
  {
    var rest := s[a..];
    forall k | |s| - b <= k < |s| ensures IsJsWhitespace(s[k]) {
      assert s[k] == rest[k - a];
    }
    assert a < |s| - b ==> s[|s| - b - 1] == rest[|rest| - 1 - b];
  }

  /** A slice with white space, and only white space, cut off on either
      side is a trim. */
  lemma TrimCut(s: string, i: int, j: int)
    requires 0 <= i <= j <= |s|
    requires forall k :: 0 <= k < i ==> IsJsWhitespace(s[k])
    requires forall k :: j <= k < |s| ==> IsJsWhitespace(s[k])
    requires i < j ==> !IsJsWhitespace(s[i]) && !IsJsWhitespace(s[j - 1])
    ensures IsTrimOf(s[i..j], s)
  {
    assert AllWhitespace(s[..i]) by {
      forall k | 0 <= k < i ensures IsJsWhitespace(s[..i][k]) {
        assert s[..i][k] == s[k];
      }
    }
    assert AllWhitespace(s[j..]) by {
      forall k | 0 <= k < |s| - j ensures IsJsWhitespace(s[j..][k]) {
        assert s[j..][k] == s[j + k];
      }
    }
    var t := s[i..j];
    assert HasTrimmedEnds(t) by {
      if t != [] {
        assert t[0] == s[i] && t[|t| - 1] == s[j - 1];
      }
    }
  }

  /** The first character of `s` that is not white space, if any, sits at
      the start of every trim of `s`; so a trim of `s` is empty exactly when
      `s` is all white space. */
  lemma TrimOfEmptyIff(t: string, s: string)
    requires IsTrimOf(t, s)
    ensures t == [] <==> AllWhitespace(s)
  {
    var i, j :| 0 <= i <= j <= |s| && t == s[i..j]
      && AllWhitespace(s[..i]) && AllWhitespace(s[j..]) && HasTrimmedEnds(t);
    if t == [] {
      forall k | 0 <= k < |s| ensures IsJsWhitespace(s[k]) {
        if k < i { assert s[..i][k] == s[k]; } else { assert s[j..][k - j] == s[k]; }
      }
    } else {
      assert t[0] == s[i];
    }
  }

  /** A stretch of `s` whose ends are not white space and that has only
      white space around it starts and ends where that white space ends. */
  lemma TrimOfBounds(s: string, i: int, j: int)
    requires 0 <= i < j <= |s|
    requires !IsJsWhitespace(s[i]) && !IsJsWhitespace(s[j - 1])
    requires AllWhitespace(s[..i]) && AllWhitespace(s[j..])
    ensures i == LeadingWhitespace(s) && j == |s| - TrailingWhitespace(s)
  {
    forall k | 0 <= k < i ensures IsJsWhitespace(s[k]) {
      assert s[..i][k] == s[k];
    }
    forall k | j <= k < |s| ensures IsJsWhitespace(s[k]) {
      assert s[j..][k - j] == s[k];
    }
    LeadingWhitespaceIs(s, i);
    TrailingWhitespaceIs(s, |s| - j);
  }

  /** `n` white-space characters followed by one that is not. */
  lemma {:induction false} LeadingWhitespaceIs(s: string, n: nat)
    requires n < |s| && !IsJsWhitespace(s[n])
    requires forall k :: 0 <= k < n ==> IsJsWhitespace(s[k])
    ensures LeadingWhitespace(s) == n
  {
    if n > 0 {
      LeadingWhitespaceIs(s[1..], n - 1);
    }
  }

  /** One character that is not white space followed by `n` that are. */
  lemma {:induction false} TrailingWhitespaceIs(s: string, n: nat)
    requires n < |s| && !IsJsWhitespace(s[|s| - 1 - n])
    requires forall k :: |s| - n <= k < |s| ==> IsJsWhitespace(s[k])
    ensures TrailingWhitespace(s) == n
  {
    if n > 0 {
      TrailingWhitespaceIs(s[..|s| - 1], n - 1);
    }
  }

  /** A trim of `s` that is not empty is the stretch between the leading
      and the trailing white space of `s`. */
  lemma TrimOfSlice(t: string, s: string)
    requires IsTrimOf(t, s) && t != []
    ensures LeadingWhitespace(s) <= |s| - TrailingWhitespace(s)
    ensures t == s[LeadingWhitespace(s)..|s| - TrailingWhitespace(s)]
  {
    var i, j :| 0 <= i <= j <= |s| && t == s[i..j]
      && AllWhitespace(s[..i]) && AllWhitespace(s[j..]) && HasTrimmedEnds(t);
    TrimEnds(t, s, i, j);
    TrimOfBounds(s, i, j);
  }

  /** The ends of a non-empty slice are characters of the string. */
  lemma TrimEnds(t: string, s: string, i: int, j: int)
    requires 0 <= i <= j <= |s| && t == s[i..j] && t != [] && HasTrimmedEnds(t)
    ensures i < j && !IsJsWhitespace(s[i]) && !IsJsWhitespace(s[j - 1])
  {
    assert s[i] == t[0] && s[j - 1] == t[|t| - 1];
  }

  /** Trimming is determined: `s` has exactly one trim. */
  lemma TrimOfUnique(t1: string, t2: string, s: string)
    requires IsTrimOf(t1, s) && IsTrimOf(t2, s)
    ensures t1 == t2
  {
    TrimOfEmptyIff(t1, s);
    TrimOfEmptyIff(t2, s);
    if t1 != [] {
      TrimOfSlice(t1, s);
      TrimOfSlice(t2, s);
    }
  }

  /** A string whose ends are not white space is its own trim. */
  lemma TrimOfTrimmed(t: string)
    requires HasTrimmedEnds(t)
    ensures Trim(t) == t
  {
    assert t[0..|t|] == t;
    assert IsTrimOf(t, t) by {
      assert AllWhitespace(t[..0]) && AllWhitespace(t[|t|..]);
    }
    TrimOfUnique(Trim(t), t, t);
  }

  /** `s.trim().trim() === s.trim()`. */
  lemma TrimIdempotent(s: string)
    ensures Trim(Trim(s)) == Trim(s)
  {
    TrimOfTrimmed(Trim(s));
  }

  /** `s.trim()` is the empty string exactly when `s` is all white space. */
  lemma TrimEmptyIff(s: string)
    ensures Trim(s) == [] <==> AllWhitespace(s)
  {
    TrimOfEmptyIff(Trim(s), s);
  }

  /** `xs.join(sep)`. */
  function Join(xs: seq<string>, sep: string): string {
    if |xs| == 0 then ""
    else if |xs| == 1 then xs[0]
    else xs[0] + sep + Join(xs[1..], sep)
  }

  /** Joining two non-empty lists puts one separator between their joins. */
  lemma {:induction false} JoinAppend(xs: seq<string>, ys: seq<string>, sep: string)
    requires xs != [] && ys != []
    ensures Join(xs + ys, sep) == Join(xs, sep) + sep + Join(ys, sep)
  {
    if |xs| == 1 {
      assert (xs + ys)[1..] == ys;
    } else {
      assert (xs + ys)[1..] == xs[1..] + ys;
      JoinAppend(xs[1..], ys, sep);
    }
  }

  /** Index of the first occurrence of `c` in `s`. */
  function IndexOf(s: string, c: char): (i: nat)
    requires c in s
    ensures i < |s| && s[i] == c && c !in s[..i]
  {
    if s[0] == c then 0
    else
      assert s == [s[0]] + s[1..];
      var i := 1 + IndexOf(s[1..], c);
      assert s[..i] == [s[0]] + s[1..][..i - 1];
      i
  }

  /** `s.split(c)` for a one-character separator. */
  function Split(s: string, c: char): (r: seq<string>)
    ensures |r| >= 1
    decreases |s|
  {
    if c !in s then [s]
    else
      var i := IndexOf(s, c);
      [s[..i]] + Split(s[i + 1..], c)
  }

  /** Splitting a join on its one-character separator gives back the parts,
      provided no part contains the separator. */
  lemma {:induction false} SplitJoin(xs: seq<string>, c: char)
    requires xs != []
    requires forall k :: 0 <= k < |xs| ==> c !in xs[k]
    ensures Split(Join(xs, [c]), c) == xs
  {
    if |xs| > 1 {
      var s := Join(xs, [c]);
      var rest := Join(xs[1..], [c]);
      assert s == xs[0] + [c] + rest;
      assert s[|xs[0]|] == c;
      assert IndexOf(s, c) == |xs[0]| by {
        var i := IndexOf(s, c);
        assert forall k :: 0 <= k < |xs[0]| ==> s[k] == xs[0][k];
        assert forall k :: 0 <= k < i ==> s[..i][k] == s[k];
      }
      assert s[..|xs[0]|] == xs[0];
      assert s[|xs[0]| + 1..] == rest;
      SplitJoin(xs[1..], c);
    }
  }

  /** The character of a decimal digit value. */
  function DigitChar(d: nat): (c: char)
    requires d < 10
    ensures IsAsciiDigit(c) && (c as int) - ('0' as int) == d
  {
    ('0' as int + d) as char
  }

  /** The decimal rendering of a natural number, without leading zeros. */
  function NatToDecimal(n: nat): (s: string)
    ensures s != []
    ensures forall k :: 0 <= k < |s| ==> IsAsciiDigit(s[k])
    ensures s[0] == '0' ==> n == 0
  {
    if n < 10 then [DigitChar(n)] else NatToDecimal(n / 10) + [DigitChar(n % 10)]
  }

  /** The number a string of decimal digits denotes. */
  function DecimalValue(s: string): nat
    requires forall k :: 0 <= k < |s| ==> IsAsciiDigit(s[k])
  {
    if s == [] then 0
    else
      assert IsAsciiDigit(s[|s| - 1]);
      10 * DecimalValue(s[..|s| - 1]) + ((s[|s| - 1] as int) - ('0' as int))
  }

  /** Reading back the decimal rendering gives the number. */
  lemma {:induction false} NatToDecimalValue(n: nat)
    ensures DecimalValue(NatToDecimal(n)) == n
  {
    var s := NatToDecimal(n);
    if n >= 10 {
      assert s[..|s| - 1] == NatToDecimal(n / 10);
      NatToDecimalValue(n / 10);
    }
  }

  /** The decimal rendering of an integer, as `${n}` gives it for integral
      numbers of magnitude at most 2^53 - 1 (`Number.MAX_SAFE_INTEGER`). */
  function IntToDecimal(n: int): (s: string)
    ensures s != []
    ensures n >= 0 ==> forall k :: 0 <= k < |s| ==> IsAsciiDigit(s[k])
    ensures n < 0 ==> s[0] == '-' && forall k :: 1 <= k < |s| ==> IsAsciiDigit(s[k])
  {
    if n < 0 then "-" + NatToDecimal(-n) else NatToDecimal(n)
  }

  /** The rendering of an integer is injective: two integers with the same
      text are equal. */
  lemma IntToDecimalInjective(m: int, n: int)
    requires IntToDecimal(m) == IntToDecimal(n)
    ensures m == n
  {
    if m < 0 && n < 0 {
      assert NatToDecimal(-m) == IntToDecimal(m)[1..] == NatToDecimal(-n);
      NatToDecimalValue(-m);
      NatToDecimalValue(-n);
    } else if m >= 0 && n >= 0 {
      NatToDecimalValue(m);
      NatToDecimalValue(n);
    }
  }
}
