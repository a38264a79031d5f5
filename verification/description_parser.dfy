/**
  The numeric fields the alert window reads out of an alert description:
  `re.search(P + "(C+)" + S, text).group(1)` for a literal prefix P, a
  character class C and a literal suffix S, then `int(...)` or
  `float(...)` of the capture.
 */
module DescriptionParser {
  import opened Wrappers

  predicate IsDigit(c: char) { '0' <= c <= '9' }

  /** `\d`, `[\d,]` and `[\d.]` (ASCII digits). */
  datatype CharClass = Digit | DigitOrComma | DigitOrDot

  predicate InClass(c: char, cls: CharClass) {
    match cls
    case Digit => IsDigit(c)
    case DigitOrComma => IsDigit(c) || c == ','
    case DigitOrDot => IsDigit(c) || c == '.'
  }

  /** The regular expression `prefix(cls+)suffix`. */
  datatype Pattern = Pattern(prefix: string, cls: CharClass, suffix: string)

  const ContinuousCountPattern := Pattern("连续", Digit, "笔")
  const QualifiedCountPattern := Pattern("共出现", Digit, "次")
  const AmountPattern := Pattern("成交额", DigitOrComma, "万元")
  const TotalRatioPattern := Pattern("占总成交额", DigitOrDot, "%")
  const MarketRatioPattern := Pattern("占流通市值", DigitOrDot, "%")

  predicate StartsWithAt(text: string, p: nat, lit: string) {
    p + |lit| <= |text| && text[p..p + |lit|] == lit
  }

  /** The pattern matches at `p` with a capture of `k` characters. */
  ghost predicate MatchesAt(text: string, pat: Pattern, p: nat, k: nat) {
    var q := p + |pat.prefix|;
    && StartsWithAt(text, p, pat.prefix)
    && k >= 1 && q + k <= |text|
    && (forall i :: q <= i < q + k ==> InClass(text[i], pat.cls))
    && StartsWithAt(text, q + k, pat.suffix)
  }

  /** Length of the run of class characters starting at `q`. */
  function ClassRun(text: string, q: nat, cls: CharClass): (m: nat)
    requires q <= |text|
    ensures q + m <= |text|
    ensures forall i :: q <= i < q + m ==> InClass(text[i], cls)
    ensures q + m < |text| ==> !InClass(text[q + m], cls)
    decreases |text| - q
  {
    if q < |text| && InClass(text[q], cls) then 1 + ClassRun(text, q + 1, cls) else 0
  }

  /** `suffix` follows a capture of `j` characters starting at `q`. */
  predicate SuffixAfter(text: string, q: nat, j: nat, suffix: string) {
    StartsWithAt(text, q + j, suffix)
  }

  /** No run of class characters from `q` is longer than `ClassRun`. */
  lemma {:induction false} ClassRunLongest(text: string, q: nat, cls: CharClass, k: nat)
    requires q + k <= |text|
    requires forall i :: q <= i < q + k ==> InClass(text[i], cls)
    ensures k <= ClassRun(text, q, cls)
    decreases k
  {
    if k > 0 {
      ClassRunLongest(text, q + 1, cls, k - 1);
    }
  }

  /** The greedy `cls+` gives back one character at a time until the suffix follows. */
  function Backtrack(text: string, q: nat, k: nat, suffix: string): (r: Option<nat>)
    requires q + k <= |text|
    ensures r.Some? ==> 1 <= r.value <= k && SuffixAfter(text, q, r.value, suffix)
    ensures r.Some? ==> forall j: nat :: r.value < j <= k ==> !SuffixAfter(text, q, j, suffix)
    ensures r.None? ==> forall j: nat :: 0 < j <= k ==> !SuffixAfter(text, q, j, suffix)
  {
    if k == 0 then None
    else if SuffixAfter(text, q, k, suffix) then Some(k)
    else Backtrack(text, q, k - 1, suffix)
  }

  /** The capture length of a match at `p`, if any: the longest one. */
  function MatchAt(text: string, pat: Pattern, p: nat): (r: Option<nat>)
    requires p <= |text|
    ensures r.Some? ==> MatchesAt(text, pat, p, r.value)
  {
    if StartsWithAt(text, p, pat.prefix) then
      Backtrack(text, p + |pat.prefix|, ClassRun(text, p + |pat.prefix|, pat.cls), pat.suffix)
    else None
  }

  /** The match found at `p` is the longest there, and there is one whenever the pattern matches at `p`. */
  lemma MatchAtLongest(text: string, pat: Pattern, p: nat, k: nat)
    requires p <= |text| && MatchesAt(text, pat, p, k)
    ensures MatchAt(text, pat, p).Some? && k <= MatchAt(text, pat, p).value
  {
    var q := p + |pat.prefix|;
    var m := ClassRun(text, q, pat.cls);
    assert k <= m && SuffixAfter(text, q, k, pat.suffix) by {
      ClassRunLongest(text, q, pat.cls, k);
    }
    BacktrackFinds(text, q, m, pat.suffix, k);
    assert MatchAt(text, pat, p) == Backtrack(text, q, m, pat.suffix);
  }

  /** Backtracking from `m` stops at the longest capture the suffix follows. */
  lemma BacktrackFinds(text: string, q: nat, m: nat, suffix: string, k: nat)
    requires q + m <= |text| && 1 <= k <= m && SuffixAfter(text, q, k, suffix)
    ensures Backtrack(text, q, m, suffix).Some? && k <= Backtrack(text, q, m, suffix).value
  {
  }

  /** `re.search`: the first position at or after `p` where the pattern matches, with its capture length. */
  function SearchFrom(text: string, pat: Pattern, p: nat): (r: Option<(nat, nat)>)
    requires p <= |text| + 1
    ensures r.Some? ==> p <= r.value.0 <= |text| && MatchesAt(text, pat, r.value.0, r.value.1)
    decreases |text| + 1 - p
  {
    if p > |text| then None
    else
      match MatchAt(text, pat, p)
      case Some(k) => Some((p, k))
      case None => SearchFrom(text, pat, p + 1)
  }

  /** `re.search` finds the leftmost match, with the longest capture at that position. */
  lemma {:induction false} SearchFromFirst(text: string, pat: Pattern, p: nat)
    requires p <= |text| + 1
    ensures var r := SearchFrom(text, pat, p);
            && (r.Some? ==> forall k: nat :: MatchesAt(text, pat, r.value.0, k) ==> k <= r.value.1)
            && (forall p': nat, k: nat :: p <= p' && (r.None? || p' < r.value.0) ==> !MatchesAt(text, pat, p', k))
    decreases |text| + 1 - p
  {
    if p <= |text| {
      forall k: nat | MatchesAt(text, pat, p, k) ensures MatchAt(text, pat, p).Some? && k <= MatchAt(text, pat, p).value {
        MatchAtLongest(text, pat, p, k);
      }
      if MatchAt(text, pat, p).None? {
        SearchFromFirst(text, pat, p + 1);
      }
    }
  }

  /**
    `extract_value`: the capture of the leftmost match, greedy at that
    position, or `None` when the pattern occurs nowhere.
   */
  function ExtractValue(text: string, pat: Pattern): (r: Option<string>)
    ensures r.Some? ==> |r.value| >= 1 && forall i :: 0 <= i < |r.value| ==> InClass(r.value[i], pat.cls)
  {
    match SearchFrom(text, pat, 0)
    case None => None
    case Some(m) => Some(Capture(text, pat, m.0, m.1))
  }

  /** `group(1)` of a match at `p` with `k` captured characters. */
  function Capture(text: string, pat: Pattern, p: nat, k: nat): (c: string)
    requires p + |pat.prefix| + k <= |text|
    ensures |c| == k && forall i :: 0 <= i < k ==> c[i] == text[p + |pat.prefix| + i]
  {
    text[p + |pat.prefix|..p + |pat.prefix| + k]
  }

  /** The capture is the text of a match, and there is none only when the pattern occurs nowhere. */
  lemma ExtractValueMatches(text: string, pat: Pattern)
    ensures var r := ExtractValue(text, pat);
            && (r.Some? ==> exists p: nat :: MatchesAt(text, pat, p, |r.value|)
                                        && r.value == text[p + |pat.prefix|..p + |pat.prefix| + |r.value|])
            && (r.None? <==> forall p: nat, k: nat :: !MatchesAt(text, pat, p, k))
  {
    SearchFromFirst(text, pat, 0);
    match SearchFrom(text, pat, 0)
    case None =>
    case Some((p, k)) =>
      assert ExtractValue(text, pat) == Some(Capture(text, pat, p, k));
  }

  predicate AllDigits(s: string) {
    forall i :: 0 <= i < |s| ==> IsDigit(s[i])
  }

  function DigitValue(c: char): nat
    requires IsDigit(c)
  {
    c as int - '0' as int
  }

  /** `int(s)` for a string of ASCII digits, most significant digit first. */
  function DigitsValue(s: string): nat
    requires AllDigits(s)
  {
    if s == [] then 0 else DigitsValue(s[..|s| - 1]) * 10 + DigitValue(s[|s| - 1])
  }

  function DigitChar(d: nat): (c: char)
    requires d < 10
    ensures IsDigit(c) && DigitValue(c) == d
  {
    ('0' as int + d) as char
  }

  /** `str(n)`: decimal digits without leading zeros. */
  function ShowNat(n: nat): (s: string)
    ensures 1 <= |s| && AllDigits(s)
    ensures s[0] == '0' ==> n == 0
  {
    if n < 10 then [DigitChar(n)] else ShowNat(n / 10) + [DigitChar(n % 10)]
  }

  /** Reading back what `str` wrote gives the number. */
  lemma {:induction false} ShowNatDigitsValue(n: nat)
    ensures DigitsValue(ShowNat(n)) == n
  {
    if n >= 10 {
      ShowNatDigitsValue(n / 10);
      var s := ShowNat(n);
      assert s[..|s| - 1] == ShowNat(n / 10);
    }
  }

  /** `s.replace(',', '')`. */
  function RemoveCommas(s: string): (r: string)
    ensures forall c :: c in r <==> c in s && c != ','
    ensures |r| <= |s|
  {
    if s == [] then [] else Kept(s[0]) + RemoveCommas(s[1..])
  }

  /** What `RemoveCommas` keeps of one character. */
  function Kept(c: char): (r: string)
    ensures c == ',' <==> r == []
    ensures r != [] ==> r == [c]
  {
    if c == ',' then [] else [c]
  }

  function Pow10(n: nat): (p: nat)
    ensures p >= 1
  {
    if n == 0 then 1 else 10 * Pow10(n - 1)
  }

  /** Position of the first `c` in `s`. */
  function IndexOf(s: string, c: char): (i: nat)
    requires c in s
    ensures i < |s| && s[i] == c
    ensures forall j :: 0 <= j < i ==> s[j] != c
  {
    if s[0] == c then 0 else 1 + IndexOf(s[1..], c)
  }

  /** At least one digit and at most one dot. */
  predicate FloatSyntax(s: string) {
    && (exists i :: 0 <= i < |s| && IsDigit(s[i]))
    && forall i, j :: 0 <= i < j < |s| && s[i] == '.' ==> s[j] != '.'
  }

  /**
    Python's `float(s)` on a string of digits and dots: accepted when
    there is at most one dot and at least one digit (`"1."`, `".5"` and
    `"12.5"`, but not `""`, `"."` or `"1.2.3"`); `None` stands for the
    `ValueError` it raises otherwise.
   */
  function ParseDecimal(s: string): (r: Option<real>)
    requires forall i :: 0 <= i < |s| ==> InClass(s[i], DigitOrDot)
    ensures r.Some? <==> FloatSyntax(s)
    ensures r.Some? ==> r.value >= 0.0
  {
    if '.' !in s then
      if s == [] then None
      else
        assert AllDigits(s) by {
          forall i | 0 <= i < |s| ensures IsDigit(s[i]) {
            assert s[i] in s && InClass(s[i], DigitOrDot);
          }
        }
        Some(DigitsValue(s) as real)
    else
      var d := IndexOf(s, '.');
      var whole, fraction := s[..d], s[d + 1..];
      if '.' in fraction then
        var j := IndexOf(fraction, '.');
        assert s[d] == '.' && s[d + 1 + j] == '.';
        None
      else if whole == [] && fraction == [] then
        assert s == ['.'];
        None
      else
        forall i, j | 0 <= i < j < |s| && s[i] == '.' ensures s[j] != '.' {
          assert i >= d;
          assert s[j] == fraction[j - d - 1];
        }
        assert AllDigits(whole) by {
          forall i | 0 <= i < |whole| ensures IsDigit(whole[i]) {
            assert whole[i] == s[i] && InClass(s[i], DigitOrDot);
          }
        }
        assert AllDigits(fraction) by {
          forall i | 0 <= i < |fraction| ensures IsDigit(fraction[i]) {
            assert fraction[i] == s[d + 1 + i] && fraction[i] in fraction && InClass(s[d + 1 + i], DigitOrDot);
          }
        }
        assert IsDigit(s[if d > 0 then 0 else d + 1]);
        Some(DigitsValue(whole) as real + DigitsValue(fraction) as real / Pow10(|fraction|) as real)
  }

  /** `int(m) if m else 0` for a `\d+` capture. */
  function CountField(text: string, pat: Pattern): (n: nat)
    requires pat.cls == Digit
    ensures ExtractValue(text, pat).None? ==> n == 0
  {
    match ExtractValue(text, pat)
    case None => 0
    case Some(c) => DigitsValue(c)
  }

  /**
    `float(m.replace(',', '')) if m else 0` for a `[\d,]+` capture; `None`
    when the capture is commas only and `float('')` raises.
   */
  function AmountField(text: string, pat: Pattern): (r: Option<real>)
    requires pat.cls == DigitOrComma
    ensures ExtractValue(text, pat).None? ==> r == Some(0.0)
    ensures r.None? <==> ExtractValue(text, pat).Some? && RemoveCommas(ExtractValue(text, pat).value) == []
  {
    match ExtractValue(text, pat)
    case None => Some(0.0)
    case Some(c) =>
      var digits := RemoveCommas(c);
      assert forall i :: 0 <= i < |digits| ==> InClass(digits[i], DigitOrDot) by {
        forall i | 0 <= i < |digits| ensures InClass(digits[i], DigitOrDot) {
          assert digits[i] in digits;
        }
      }
      ParseDecimal(digits)
  }

  /** `float(m) if m else 0` for a `[\d.]+` capture; `None` when `float` raises. */
  function RatioField(text: string, pat: Pattern): (r: Option<real>)
    requires pat.cls == DigitOrDot
    ensures ExtractValue(text, pat).None? ==> r == Some(0.0)
    ensures ExtractValue(text, pat).Some? ==> r == ParseDecimal(ExtractValue(text, pat).value)
  {
    match ExtractValue(text, pat)
    case None => Some(0.0)
    case Some(c) => ParseDecimal(c)
  }

  /** A run of exactly `k` class characters from `q`, ended by a character outside the class. */
  lemma {:induction false} ClassRunExact(text: string, q: nat, cls: CharClass, k: nat)
    requires q + k < |text|
    requires forall i :: q <= i < q + k ==> InClass(text[i], cls)
    requires !InClass(text[q + k], cls)
    ensures ClassRun(text, q, cls) == k
    decreases k
  {
    if k > 0 {
      ClassRunExact(text, q + 1, cls, k - 1);
    }
  }

  /** `re.search` passes over positions where the prefix does not start. */
  lemma {:induction false} SearchSkips(text: string, pat: Pattern, p: nat, target: nat)
    requires p <= target <= |text|
    requires forall p' :: p <= p' < target ==> !StartsWithAt(text, p', pat.prefix)
    requires MatchAt(text, pat, target).Some?
    ensures SearchFrom(text, pat, p) == Some((target, MatchAt(text, pat, target).value))
    decreases target - p
  {
    if p < target {
      SearchSkips(text, pat, p + 1, target);
    }
  }

  /** The pattern matches at `p` with exactly `k` captured characters when the run of class characters stops there. */
  lemma MatchAtExact(text: string, pat: Pattern, p: nat, k: nat)
    requires StartsWithAt(text, p, pat.prefix)
    requires p + |pat.prefix| + k < |text|
    requires k >= 1 && forall i :: p + |pat.prefix| <= i < p + |pat.prefix| + k ==> InClass(text[i], pat.cls)
    requires !InClass(text[p + |pat.prefix| + k], pat.cls)
    requires SuffixAfter(text, p + |pat.prefix|, k, pat.suffix)
    ensures MatchAt(text, pat, p) == Some(k)
  {
    ClassRunExact(text, p + |pat.prefix|, pat.cls, k);
  }

  /**
    A capture written between the pattern's prefix and suffix is read back
    unchanged, provided the prefix does not occur earlier in the text and
    the suffix does not start with a class character.
   */
  lemma ExtractWritten(before: string, pat: Pattern, capture: string, rest: string)
    requires |capture| >= 1 && forall i :: 0 <= i < |capture| ==> InClass(capture[i], pat.cls)
    requires pat.suffix != [] && !InClass(pat.suffix[0], pat.cls)
    requires forall p :: 0 <= p < |before| ==> !StartsWithAt(before + pat.prefix + capture + pat.suffix + rest, p, pat.prefix)
    ensures ExtractValue(before + pat.prefix + capture + pat.suffix + rest, pat) == Some(capture)
  {
    var text := before + pat.prefix + capture + pat.suffix + rest;
    WrittenLayout(before, pat, capture, rest);
    ExtractFirst(text, pat, |before|, |capture|, capture);
  }

  /** Where the prefix, the capture and the suffix sit in `before + prefix + capture + suffix + rest`. */
  lemma WrittenLayout(before: string, pat: Pattern, capture: string, rest: string)
    requires |capture| >= 1 && forall i :: 0 <= i < |capture| ==> InClass(capture[i], pat.cls)
    requires pat.suffix != [] && !InClass(pat.suffix[0], pat.cls)
    ensures var text, p, k := before + pat.prefix + capture + pat.suffix + rest, |before|, |capture|;
            && StartsWithAt(text, p, pat.prefix)
            && p + |pat.prefix| + k < |text| && capture == text[p + |pat.prefix|..p + |pat.prefix| + k]
            && (forall i :: p + |pat.prefix| <= i < p + |pat.prefix| + k ==> InClass(text[i], pat.cls))
            && !InClass(text[p + |pat.prefix| + k], pat.cls)
            && SuffixAfter(text, p + |pat.prefix|, k, pat.suffix)
  {
    var text := before + pat.prefix + capture + pat.suffix + rest;
    var p, q, k := |before|, |before| + |pat.prefix|, |capture|;
    var tail := pat.suffix + rest;
    assert text == before + pat.prefix + capture + tail;
    assert text[p..q] == pat.prefix;
    assert text[q..q + k] == capture;
    assert text[q + k..] == tail;
    assert tail[..|pat.suffix|] == pat.suffix;
    assert forall i :: q <= i < q + k ==> text[i] == capture[i - q];
  }

  /** The first match, at `p` and with `k` captured characters, is what `re.search` returns. */
  lemma ExtractFirst(text: string, pat: Pattern, p: nat, k: nat, capture: string)
    requires StartsWithAt(text, p, pat.prefix)
    requires p + |pat.prefix| + k < |text| && capture == text[p + |pat.prefix|..p + |pat.prefix| + k]
    requires k >= 1 && forall i :: p + |pat.prefix| <= i < p + |pat.prefix| + k ==> InClass(text[i], pat.cls)
    requires !InClass(text[p + |pat.prefix| + k], pat.cls)
    requires SuffixAfter(text, p + |pat.prefix|, k, pat.suffix)
    requires forall p' :: 0 <= p' < p ==> !StartsWithAt(text, p', pat.prefix)
    ensures ExtractValue(text, pat) == Some(capture)
  {
    MatchAtExact(text, pat, p, k);
    SearchSkips(text, pat, 0, p);
    ExtractOfSearch(text, pat, p, k);
  }

  /** `m.group(1)` of the match `re.search` found. */
  lemma ExtractOfSearch(text: string, pat: Pattern, p: nat, k: nat)
    requires SearchFrom(text, pat, 0) == Some((p, k))
    ensures p + |pat.prefix| + k <= |text|
    ensures ExtractValue(text, pat) == Some(Capture(text, pat, p, k))
  {
  }

  /** A count written with `str` into `连续{n}笔` (or any `\d+` pattern) reads back as `n`. */
  lemma CountFieldReadsBack(before: string, pat: Pattern, n: nat, rest: string)
    requires pat.cls == Digit
    requires pat.suffix != [] && !IsDigit(pat.suffix[0])
    requires forall p :: 0 <= p < |before| ==> !StartsWithAt(before + pat.prefix + ShowNat(n) + pat.suffix + rest, p, pat.prefix)
    ensures CountField(before + pat.prefix + ShowNat(n) + pat.suffix + rest, pat) == n
  {
    ExtractWritten(before, pat, ShowNat(n), rest);
    ShowNatDigitsValue(n);
  }

  lemma {:induction false} IndexOfIs(s: string, c: char, d: nat)
    requires d < |s| && s[d] == c
    requires forall i :: 0 <= i < d ==> s[i] != c
    ensures IndexOf(s, c) == d
  {
    if d > 0 {
      IndexOfIs(s[1..], c, d - 1);
    }
  }

  /** `float` of digits, one dot, digits. */
  lemma ParseDecimalAt(s: string, d: nat, whole: string, fraction: string)
    requires d < |s| && s[d] == '.' && whole == s[..d] && fraction == s[d + 1..]
    requires AllDigits(whole) && AllDigits(fraction) && |s| >= 2
    ensures forall i :: 0 <= i < |s| ==> InClass(s[i], DigitOrDot)
    ensures ParseDecimal(s) == Some(DigitsValue(whole) as real + DigitsValue(fraction) as real / Pow10(|fraction|) as real)
  {
    forall i | 0 <= i < |s| ensures InClass(s[i], DigitOrDot) && (i != d ==> s[i] != '.') {
      if i < d {
        assert s[i] == whole[i];
      } else if i > d {
        assert s[i] == fraction[i - d - 1];
      }
    }
    IndexOfIs(s, '.', d);
    assert s[d] in s;
    assert |whole| + |fraction| >= 1;
    assert '.' !in fraction by {
      forall i | 0 <= i < |fraction| ensures fraction[i] != '.' {
        assert IsDigit(fraction[i]);
      }
    }
  }

  /** Digits, a dot and digits parse to the whole part plus the fraction. */
  lemma ParseDecimalJoin(whole: string, fraction: string)
    requires |whole| >= 1 && AllDigits(whole) && AllDigits(fraction)
    ensures var s := whole + "." + fraction;
            && (forall i :: 0 <= i < |s| ==> InClass(s[i], DigitOrDot))
            && ParseDecimal(s) == Some(DigitsValue(whole) as real + DigitsValue(fraction) as real / Pow10(|fraction|) as real)
  {
    var s := whole + "." + fraction;
    var d := |whole|;
    assert s[..d] == whole && s[d + 1..] == fraction && s[d] == '.';
    ParseDecimalAt(s, d, whole, fraction);
  }

  /** A fixed-point number written as `{w}.{f}` (as `:.3f` does) parses to its value. */
  lemma ParseDecimalFixed(w: nat, f: string)
    requires AllDigits(f)
    ensures var s := ShowNat(w) + "." + f;
            (forall i :: 0 <= i < |s| ==> InClass(s[i], DigitOrDot))
            && ParseDecimal(s) == Some(w as real + DigitsValue(f) as real / Pow10(|f|) as real)
  {
    var whole := ShowNat(w);
    ShowNatDigitsValue(w);
    ParseDecimalJoin(whole, f);
  }

  /** `float` of a non-empty digit string is its integer value. */
  lemma ParseDecimalDigits(s: string)
    requires |s| >= 1 && AllDigits(s)
    ensures (forall i :: 0 <= i < |s| ==> InClass(s[i], DigitOrDot)) && ParseDecimal(s) == Some(DigitsValue(s) as real)
  {
    assert '.' !in s by {
      forall i | 0 <= i < |s| ensures s[i] != '.' {
        assert IsDigit(s[i]);
      }
    }
  }

  /** Three digits with leading zeros, as a thousands group. */
  function Pad3(b: nat): (s: string)
    requires b < 1000
    ensures |s| == 3 && AllDigits(s) && DigitsValue(s) == b
  {
    var s := [DigitChar(b / 100), DigitChar(b / 10 % 10), DigitChar(b % 10)];
    assert s[..2] == s[..3][..2];
    assert s[..2][..1] == [s[0]] && [s[0]][..0] == [];
    assert DigitsValue(s[..2][..1]) == b / 100;
    assert DigitsValue(s[..2]) == b / 100 * 10 + b / 10 % 10;
    assert b / 100 == b / 10 / 10;
    assert b / 10 / 10 * 10 + b / 10 % 10 == b / 10;
    assert b / 10 * 10 + b % 10 == b;
    s
  }

  /** `format(n, ',')`: decimal digits with a comma between thousands groups. */
  function ShowGrouped(n: nat): (s: string)
    ensures 1 <= |s| && IsDigit(s[0])
    ensures forall i :: 0 <= i < |s| ==> InClass(s[i], DigitOrComma)
  {
    if n < 1000 then ShowNat(n) else ShowGrouped(n / 1000) + "," + Pad3(n % 1000)
  }

  lemma {:induction false} RemoveCommasAppend(a: string, b: string)
    ensures RemoveCommas(a + b) == RemoveCommas(a) + RemoveCommas(b)
  {
    if a == [] {
      assert a + b == b;
    } else {
      assert (a + b)[0] == a[0] && (a + b)[1..] == a[1..] + b;
      RemoveCommasAppend(a[1..], b);
      var k, x, y := Kept(a[0]), RemoveCommas(a[1..]), RemoveCommas(b);
      assert RemoveCommas(a + b) == k + (x + y);
      assert k + (x + y) == (k + x) + y;
    }
  }

  lemma {:induction false} RemoveCommasDigits(s: string)
    requires AllDigits(s)
    ensures RemoveCommas(s) == s
  {
    if s != [] {
      RemoveCommasDigits(s[1..]);
    }
  }

  /** One more digit on the right: `(x * p + y) * 10 + d == x * (p * 10) + (y * 10 + d)`. */
  lemma ShiftDigit(x: int, p: int, y: int, d: int)
    ensures (x * p + y) * 10 + d == x * (p * 10) + (y * 10 + d)
  {
  }

  lemma DigitsValueSnoc(s: string, c: char)
    requires AllDigits(s) && IsDigit(c)
    ensures AllDigits(s + [c]) && DigitsValue(s + [c]) == DigitsValue(s) * 10 + DigitValue(c)
  {
    assert (s + [c])[..|s|] == s;
  }

  lemma {:induction false} DigitsValueAppend(a: string, b: string)
    requires AllDigits(a) && AllDigits(b)
    ensures AllDigits(a + b) && DigitsValue(a + b) == DigitsValue(a) * Pow10(|b|) + DigitsValue(b)
    decreases |b|
  {
    if b == [] {
      assert a + b == a;
    } else {
      var b', c := b[..|b| - 1], b[|b| - 1];
      assert b == b' + [c] && a + b == (a + b') + [c];
      DigitsValueAppend(a, b');
      DigitsValueSnoc(a + b', c);
      DigitsValueSnoc(b', c);
      ShiftDigit(DigitsValue(a), Pow10(|b'|), DigitsValue(b'), DigitValue(c));
    }
  }

  /** Dropping the separators of `format(n, ',')` leaves the digits of `n`. */
  lemma {:induction false} ShowGroupedValue(n: nat)
    ensures var digits := RemoveCommas(ShowGrouped(n));
            |digits| >= 1 && AllDigits(digits) && DigitsValue(digits) == n
  {
    if n < 1000 {
      RemoveCommasDigits(ShowNat(n));
      ShowNatDigitsValue(n);
    } else {
      var highDigits, low := RemoveCommas(ShowGrouped(n / 1000)), Pad3(n % 1000);
      ShowGroupedValue(n / 1000);
      GroupedDigits(n);
      DigitsValueAppend(highDigits, low);
      assert Pow10(|low|) == 1000;
    }
  }

  /** The separators of `format(n, ',')` for `n >= 1000` sit between the groups. */
  lemma GroupedDigits(n: nat)
    requires n >= 1000
    ensures RemoveCommas(ShowGrouped(n)) == RemoveCommas(ShowGrouped(n / 1000)) + Pad3(n % 1000)
  {
    var high, low := ShowGrouped(n / 1000), Pad3(n % 1000);
    RemoveCommasAppend(high + ",", low);
    RemoveCommasAppend(high, ",");
    RemoveCommasDigits(low);
    assert RemoveCommas(",") == [];
  }

  /** An amount written with thousands separators into `成交额{n}万元` reads back as `n`. */
  lemma AmountFieldReadsBack(before: string, pat: Pattern, n: nat, rest: string)
    requires pat.cls == DigitOrComma
    requires pat.suffix != [] && !InClass(pat.suffix[0], DigitOrComma)
    requires forall p :: 0 <= p < |before| ==> !StartsWithAt(before + pat.prefix + ShowGrouped(n) + pat.suffix + rest, p, pat.prefix)
    ensures AmountField(before + pat.prefix + ShowGrouped(n) + pat.suffix + rest, pat) == Some(n as real)
  {
    ExtractWritten(before, pat, ShowGrouped(n), rest);
    ShowGroupedValue(n);
    ParseDecimalDigits(RemoveCommas(ShowGrouped(n)));
  }

  /** A ratio written as `{w}.{f}` into `占流通市值{w}.{f}%` reads back as its value. */
  lemma RatioFieldReadsBack(before: string, pat: Pattern, w: nat, f: string, rest: string)
    requires pat.cls == DigitOrDot && AllDigits(f)
    requires pat.suffix != [] && !InClass(pat.suffix[0], DigitOrDot)
    requires forall p :: 0 <= p < |before| ==> !StartsWithAt(before + pat.prefix + (ShowNat(w) + "." + f) + pat.suffix + rest, p, pat.prefix)
    ensures RatioField(before + pat.prefix + (ShowNat(w) + "." + f) + pat.suffix + rest, pat)
            == Some(w as real + DigitsValue(f) as real / Pow10(|f|) as real)
  {
    ParseDecimalFixed(w, f);
    ExtractWritten(before, pat, ShowNat(w) + "." + f, rest);
  }
}
