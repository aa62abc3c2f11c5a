/**
 * The reference normaliser of the wishlist page: a pasted catalogue
 * reference or product link becomes the reference stored with an item.
 * The match of the regular expression `/(\d{6,})/` is modelled as the
 * leftmost position where six ASCII digits start, extended greedily.
 */
module RefNormalizer {
  import opened Wrappers
  import opened Text

  /** `\d{6,}` asks for at least this many digits. */
  const MinRefDigits: nat := 6

  /** `s.startsWith(prefix)`, case-sensitive. */
  predicate StartsWith(s: string, prefix: string) {
    |prefix| <= |s| && s[..|prefix|] == prefix
  }

  /** The test that decides whether a reference is a pasted link. */
  predicate IsHttpLink(s: string) {
    StartsWith(s, "http://") || StartsWith(s, "https://")
  }

  /** `n` ASCII digits start at position `i` of `s`. */
  ghost predicate DigitsAt(s: string, i: int, n: nat) {
    0 <= i && i + n <= |s| && forall k :: i <= k < i + n ==> IsAsciiDigit(s[k])
  }

  /** Reference definition of the match: `s[p..q]` is the run `\d{6,}` takes,
      namely at least six digits, not followed by a digit, and no six digits
      start anywhere before `p`. */
  ghost predicate IsFirstLongRun(s: string, p: int, q: int) {
    0 <= p && p + MinRefDigits <= q <= |s|
    && (forall k :: p <= k < q ==> IsAsciiDigit(s[k]))
    && (q == |s| || !IsAsciiDigit(s[q]))
    && (forall k :: 0 <= k < p ==> !DigitsAt(s, k, MinRefDigits))
  }

  /** Length of the run of digits that starts at position `i`. */
  function DigitRunLength(s: string, i: nat): (n: nat)
    requires i <= |s|
    ensures i + n <= |s|
    ensures forall k :: i <= k < i + n ==> IsAsciiDigit(s[k])
    ensures i + n == |s| || !IsAsciiDigit(s[i + n])
    decreases |s| - i
  {
    if i < |s| && IsAsciiDigit(s[i]) then 1 + DigitRunLength(s, i + 1) else 0
  }

  /** The leftmost position at or after `i` where `\d{6,}` matches. */
  function MatchFrom(s: string, i: nat): (r: Option<nat>)
    requires i <= |s|
    ensures r.Some? ==> i <= r.value && DigitsAt(s, r.value, MinRefDigits)
    ensures forall k :: i <= k && (r.None? || k < r.value) ==> !DigitsAt(s, k, MinRefDigits)
    decreases |s| - i
  {
    if i == |s| then None
    else if DigitRunLength(s, i) >= MinRefDigits then Some(i)
    else MatchFrom(s, i + 1)
  }

  /** Where the match of `/(\d{6,})/` on `s` starts and ends, if it matches. */
  function LongRunBounds(s: string): (b: Option<(nat, nat)>)
    ensures b.None? <==> forall k :: !DigitsAt(s, k, MinRefDigits)
    ensures b.Some? ==> IsFirstLongRun(s, b.value.0, b.value.1)
  {
    match MatchFrom(s, 0)
    case None => None
    case Some(p) =>
      var q := p + DigitRunLength(s, p);
      Some((p, q))
  }

  /** `s.match(/(\d{6,})/)?.[1]`: the first run of six or more digits. */
  function FirstLongDigitRun(s: string): (r: Option<string>)
    ensures r.None? <==> forall k :: !DigitsAt(s, k, MinRefDigits)
    ensures r.Some? ==> var (p, q) := LongRunBounds(s).value;
      IsFirstLongRun(s, p, q) && r.value == s[p..q]
  {
    match LongRunBounds(s)
    case None => None
    case Some((p, q)) => Some(s[p..q])
  }

  /** The reference definition fixes the match: the run it describes is
      the one found. */
  lemma FirstLongRunFound(s: string, p: int, q: int)
    requires IsFirstLongRun(s, p, q)
    ensures LongRunBounds(s) == Some((p, q))
    ensures FirstLongDigitRun(s) == Some(s[p..q])
  {
    assert DigitsAt(s, p, MinRefDigits);
    var (p', q') := LongRunBounds(s).value;
    assert DigitsAt(s, p', MinRefDigits);
    assert p' == p;
    RunEndUnique(s, p, q, q');
  }

  /** A run of digits starting at `p` has only one maximal end. */
  lemma RunEndUnique(s: string, p: int, q1: int, q2: int)
    requires 0 <= p <= q1 <= |s| && p <= q2 <= |s|
    requires forall k :: p <= k < q1 ==> IsAsciiDigit(s[k])
    requires forall k :: p <= k < q2 ==> IsAsciiDigit(s[k])
    requires q1 == |s| || !IsAsciiDigit(s[q1])
    requires q2 == |s| || !IsAsciiDigit(s[q2])
    ensures q1 == q2
  {
  }

  /** The match starts a maximal run: the character before it is no digit. */
  lemma FirstLongRunIsMaximal(s: string, p: int, q: int)
    requires IsFirstLongRun(s, p, q)
    ensures p == 0 || !IsAsciiDigit(s[p - 1])
  {
    if p > 0 {
      assert !DigitsAt(s, p - 1, MinRefDigits);
    }
  }

  /** `normalizeRef(input)`. */
  function NormalizeRef(input: string): string {
    var s := Trim(input);
    if s == [] then ""
    else if IsHttpLink(s) then
      match FirstLongDigitRun(s)
      case Some(run) => run
      case None => s
    else s
  }

  /** The reference is empty exactly when the input is white space only. */
  lemma NormalizeRefEmptyIff(input: string)
    ensures NormalizeRef(input) == "" <==> Trim(input) == ""
    ensures NormalizeRef(input) == "" <==> AllWhitespace(input)
  {
    TrimEmptyIff(input);
  }

  /** Anything but a link, and a link without six digits in a row, is kept
      as trimmed. */
  lemma NormalizeRefVerbatim(input: string)
    requires !IsHttpLink(Trim(input))
      || forall k :: !DigitsAt(Trim(input), k, MinRefDigits)
    ensures NormalizeRef(input) == Trim(input)
  {
  }

  /** From a link holding six digits in a row, the reference is the first
      maximal run of at least six digits, taken out of the trimmed link. */
  lemma NormalizeRefExtracts(input: string, i: int)
    requires IsHttpLink(Trim(input)) && DigitsAt(Trim(input), i, MinRefDigits)
    ensures LongRunBounds(Trim(input)).Some?
    ensures var s, r := Trim(input), NormalizeRef(input);
      var (p, q) := LongRunBounds(s).value;
      IsFirstLongRun(s, p, q) && r == s[p..q]
      && |r| >= MinRefDigits && (forall k :: 0 <= k < |r| ==> IsAsciiDigit(r[k]))
  {
    var s := Trim(input);
    assert LongRunBounds(s).Some?;
    var (p, q) := LongRunBounds(s).value;
    assert NormalizeRef(input) == s[p..q];
    RunIsDigits(s, p, q);
  }

  /** The matched run consists of at least six digits. */
  lemma RunIsDigits(s: string, p: int, q: int)
    requires IsFirstLongRun(s, p, q)
    ensures |s[p..q]| >= MinRefDigits && forall k :: 0 <= k < q - p ==> IsAsciiDigit(s[p..q][k])
  {
    assert forall k :: 0 <= k < q - p ==> s[p..q][k] == s[p + k];
  }

  /** Normalising a normalised reference changes nothing. */
  lemma NormalizeRefIdempotent(input: string)
    ensures NormalizeRef(NormalizeRef(input)) == NormalizeRef(input)
  {
    var s := Trim(input);
    var r := NormalizeRef(input);
    if r == s {
      TrimIdempotent(input);
      NormalizeRefSameTrim(r, input);
    } else {
      var (p, q) := LongRunBounds(s).value;
      assert r == s[p..q];
      RunIsDigits(s, p, q);
      DigitsAreBareRef(r);
    }
  }

  /** The reference depends on the input only through its trim. */
  lemma NormalizeRefSameTrim(a: string, b: string)
    requires Trim(a) == Trim(b)
    ensures NormalizeRef(a) == NormalizeRef(b)
  {
  }

  /** A non-empty string of digits is a reference of its own. */
  lemma DigitsAreBareRef(r: string)
    requires r != [] && forall k :: 0 <= k < |r| ==> IsAsciiDigit(r[k])
    ensures NormalizeRef(r) == r
  {
    assert IsAsciiDigit(r[0]) && IsAsciiDigit(r[|r| - 1]);
    TrimOfTrimmed(r);
    assert !StartsWith(r, "http://") by {
      if |r| >= 7 { assert r[..7][0] == r[0]; }
    }
    assert !StartsWith(r, "https://") by {
      if |r| >= 8 { assert r[..8][0] == r[0]; }
    }
  }

  /** A product link yields the article number in it. */
  lemma NormalizeRefLinkExample(link: string)
    requires link == "https://shop.example/p/12345678.html"
    ensures NormalizeRef(link) == "12345678"
  {
    ExampleLinkFacts(link);
    NormalizeLinkWithRun(link, 23, 31);
  }

  lemma ExampleLinkFacts(link: string)
    requires link == "https://shop.example/p/12345678.html"
    ensures Trim(link) == link && IsHttpLink(link)
    ensures IsFirstLongRun(link, 23, 31) && link[23..31] == "12345678"
  {
    ExampleLinkTrimmed(link);
    ExampleLinkIsLink(link);
    ExampleLinkRun(link);
    assert link[23..31] == "12345678";
  }

  lemma ExampleLinkIsLink(link: string)
    requires link == "https://shop.example/p/12345678.html"
    ensures IsHttpLink(link)
  {
    assert link[..8] == "https://";
  }

  lemma ExampleLinkTrimmed(link: string)
    requires link == "https://shop.example/p/12345678.html"
    ensures Trim(link) == link
  {
    assert link[0] == 'h' && link[|link| - 1] == 'l';
    TrimOfTrimmed(link);
  }

  lemma ExampleLinkRun(link: string)
    requires link == "https://shop.example/p/12345678.html"
    ensures IsFirstLongRun(link, 23, 31)
  {
    forall k | 0 <= k < 23 ensures !DigitsAt(link, k, MinRefDigits) {
      assert !IsAsciiDigit(link[k]);
    }
  }

  /** A trimmed link with a run of six digits normalises to that run. */
  lemma NormalizeLinkWithRun(s: string, p: int, q: int)
    requires Trim(s) == s && IsHttpLink(s) && IsFirstLongRun(s, p, q)
    ensures NormalizeRef(s) == s[p..q]
  {
    FirstLongRunFound(s, p, q);
  }

  /** A bare reference is kept as typed, apart from the white space around it. */
  lemma NormalizeRefBareExample(input: string)
    requires input == "  999 "
    ensures NormalizeRef(input) == "999"
  {
    assert input[2..5] == "999";
    assert AllWhitespace(input[..2]) && AllWhitespace(input[5..]);
    assert IsTrimOf("999", input);
    TrimOfUnique(Trim(input), "999", input);
  }
}
