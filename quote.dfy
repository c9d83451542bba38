/**
 * Quote normalisation of the Steam price-overview response: the price and
 * volume parsers, the spread arithmetic and the validity test of a quote.
 * Prices are exact reals; the final `float(...)` conversion is a predicate
 * for a Python float literal over the characters that survive cleaning,
 * together with the literal's exact decimal value.
 */
module Quote {
  import opened Text

  /** The characters `re.sub(r'[^\d.,-]', '', ...)` keeps. */
  predicate IsPriceChar(c: char) { IsDigit(c) || c == '.' || c == ',' || c == '-' }

  predicate IsSeparator(c: char) { c == '.' || c == ',' }

  predicate NotDot(c: char) { c != '.' }

  predicate NotSeparator(c: char) { !IsSeparator(c) }

  /** `re.sub(r'[^\d.,-]', '', price_str.strip())`. */
  function Clean(s: string): (r: string)
  {
    Filter(Trim(s), IsPriceChar)
  }

  /** Stripping first changes nothing: cleaning keeps exactly the digits, `.`, `,` and `-` of the raw
    * string, in their original order. */
  lemma CleanKeepsPriceChars(s: string, c: char)
    ensures Clean(s) == Filter(s, IsPriceChar)
    ensures multiset(Clean(s))[c] == if IsPriceChar(c) then multiset(s)[c] else 0
  {
    FilterIgnoresTrim(s, IsPriceChar);
    FilterOccurrences(s, IsPriceChar, c);
  }

  /** A filter that drops whitespace gives the same result with or without stripping first. */
  lemma FilterIgnoresTrim(s: string, keep: char -> bool)
    requires forall c :: IsSpace(c) ==> !keep(c)
    ensures Filter(Trim(s), keep) == Filter(s, keep)
  {
    FilterIgnoresTrimStart(s, keep);
    FilterIgnoresTrimEnd(TrimStart(s), keep);
  }

  lemma FilterIgnoresTrimStart(s: string, keep: char -> bool)
    requires forall c :: IsSpace(c) ==> !keep(c)
    ensures Filter(TrimStart(s), keep) == Filter(s, keep)
  {
    var k := LeadingSpaces(s);
    LeadingSpacesSpec(s);
    assert s == s[..k] + s[k..];
    FilterAppend(s[..k], s[k..], keep);
    FilterDropsAll(s[..k], keep);
  }

  lemma FilterIgnoresTrimEnd(s: string, keep: char -> bool)
    requires forall c :: IsSpace(c) ==> !keep(c)
    ensures Filter(TrimEnd(s), keep) == Filter(s, keep)
  {
    var k := |s| - TrailingSpaces(s);
    TrailingSpacesSpec(s);
    assert s == s[..k] + s[k..];
    FilterAppend(s[..k], s[k..], keep);
    FilterDropsAll(s[k..], keep);
    assert Filter(s[..k], keep) + [] == Filter(s[..k], keep);
  }

  /** The integer part kept before a `,--` or `.-` suffix: itself when it is all digits, otherwise
    * the part with every `.` and `,` removed. */
  function WholeNumber(part: string): (r: string)
  {
    if IsDigitString(part) then part else Filter(part, NotSeparator)
  }

  /** Both branches of `WholeNumber` agree on a digit string, so the part only loses its separators. */
  lemma WholeNumberDropsSeparators(part: string)
    ensures WholeNumber(part) == Filter(part, NotSeparator)
  {
    if IsDigitString(part) {
      FilterKeepsAll(part, NotSeparator);
    }
  }

  /** The rewriting of the cleaned string before conversion, branch for branch. */
  function Normalize(c: string): string
  {
    if EndsWith(c, ",--") then WholeNumber(c[..|c| - 3])
    else if EndsWith(c, ".-") then WholeNumber(c[..|c| - 2])
    else if ',' in c && '.' in c then
      var parts := Split(c, ',');
      if |parts| == 2 then Filter(parts[0], NotDot) + "." + parts[1] else c
    else if ',' in c then Replace(c, ',', '.')
    else c
  }

  // ----- float() on the normalised string -----

  predicate IsDigitOrDot(c: char) { IsDigit(c) || c == '.' }

  /** An unsigned Python float literal over digits and `.`: at most one dot and at least one digit. */
  predicate IsUnsignedLiteral(u: string) {
    (forall i :: 0 <= i < |u| ==> IsDigitOrDot(u[i])) && Count(u, '.') <= 1 && HasDigit(u)
  }

  /** What `float()` accepts among strings over `[0-9.,-]`: an optional leading minus sign and an
    * unsigned literal. A comma, a second dot, a second sign or a digit-free string is rejected. */
  predicate IsFloatLiteral(s: string) {
    if |s| > 0 && s[0] == '-' then IsUnsignedLiteral(s[1..]) else IsUnsignedLiteral(s)
  }

  /** The exact value of the decimal `whole.fraction`. */
  function DecimalValue(whole: string, fraction: string): (v: real)
    requires AllDigits(whole) && AllDigits(fraction)
    ensures v >= 0.0
  {
    DigitsValue(whole) as real + DigitsValue(fraction) as real / Pow10(|fraction|) as real
  }

  lemma DigitsOfDotFree(u: string)
    requires forall i :: 0 <= i < |u| ==> IsDigitOrDot(u[i])
    requires '.' !in u
    ensures AllDigits(u)
  {
    forall i | 0 <= i < |u| ensures IsDigit(u[i]) {
      assert u[i] in u;
    }
  }

  /** The integer and fraction parts of an unsigned literal are digit strings. */
  lemma LiteralParts(u: string)
    requires forall i :: 0 <= i < |u| ==> IsDigitOrDot(u[i])
    requires Count(u, '.') <= 1
    ensures AllDigits(BeforeFirst(u, '.')) && AllDigits(AfterFirst(u, '.'))
  {
    CutAtFirst(u, '.');
    var w, f := BeforeFirst(u, '.'), AfterFirst(u, '.');
    if '.' in u {
      assert u == w + ['.'] + f;
      CountAppend(w + ['.'], f, '.');
      CountAppend(w, ['.'], '.');
      assert Count(f, '.') == 0;
      forall i | 0 <= i < |w| ensures IsDigitOrDot(w[i]) { assert w[i] == u[i]; }
      forall i | 0 <= i < |f| ensures IsDigitOrDot(f[i]) { assert f[i] == u[|w| + 1 + i]; }
    }
    DigitsOfDotFree(w);
    DigitsOfDotFree(f);
  }

  function UnsignedValue(u: string): (v: real)
    requires IsUnsignedLiteral(u)
    ensures v >= 0.0
  {
    LiteralParts(u);
    DecimalValue(BeforeFirst(u, '.'), AfterFirst(u, '.'))
  }

  function LiteralValue(s: string): real
    requires IsFloatLiteral(s)
  {
    if |s| > 0 && s[0] == '-' then -UnsignedValue(s[1..]) else UnsignedValue(s)
  }

  /** `float(cleaned)`, with a rejected string giving 0.0 as the `except ValueError` branch does. */
  function ToFloat(s: string): real
  {
    if IsFloatLiteral(s) then LiteralValue(s) else 0.0
  }

  /** `_parse_price_string`. */
  function ParsePrice(priceStr: string): real
  {
    if priceStr == [] then 0.0 else ToFloat(Normalize(Clean(priceStr)))
  }

  // ----- properties of the parser -----

  lemma FilterKeepsDigits(s: string, keep: char -> bool)
    requires forall c :: IsDigit(c) ==> keep(c)
    ensures Digits(Filter(s, keep)) == Digits(s)
  {
    if s != [] {
      FilterKeepsDigits(s[1..], keep);
      var head := if keep(s[0]) then [s[0]] else [];
      assert Filter(s, keep) == head + Filter(s[1..], keep);
      DigitsAppend(head, Filter(s[1..], keep));
      DigitsAppend([s[0]], s[1..]);
      assert s == [s[0]] + s[1..];
    }
  }

  lemma ReplaceKeepsDigits(s: string)
    ensures Digits(Replace(s, ',', '.')) == Digits(s)
  {
    if s != [] {
      ReplaceKeepsDigits(s[1..]);
      assert Replace(s, ',', '.') == Replace(s, ',', '.')[..1] + Replace(s[1..], ',', '.');
      DigitsAppend(Replace(s, ',', '.')[..1], Replace(s[1..], ',', '.'));
      DigitsAppend([s[0]], s[1..]);
      assert s == [s[0]] + s[1..];
    }
  }

  lemma DigitsOfNonDigits(s: string)
    requires forall i :: 0 <= i < |s| ==> !IsDigit(s[i])
    ensures Digits(s) == []
  {
    FilterDropsAll(s, IsDigit);
  }

  /** Dropping a digit-free suffix of `n` characters and the separators before it keeps the digits. */
  lemma SuffixKeepsDigits(c: string, n: nat)
    requires n <= |c| && forall i :: |c| - n <= i < |c| ==> !IsDigit(c[i])
    ensures Digits(WholeNumber(c[..|c| - n])) == Digits(c)
  {
    var part, tail := c[..|c| - n], c[|c| - n..];
    assert c == part + tail;
    DigitsAppend(part, tail);
    forall i | 0 <= i < |tail| ensures !IsDigit(tail[i]) {
      assert tail[i] == c[|c| - n + i];
    }
    DigitsOfNonDigits(tail);
    WholeNumberDropsSeparators(part);
    FilterKeepsDigits(part, NotSeparator);
  }

  /** The thousands rewriting keeps the digits. */
  lemma ThousandsKeepsDigits(c: string)
    requires ',' in c
    ensures var w, f := BeforeFirst(c, ','), AfterFirst(c, ',');
            Digits(Filter(w, NotDot) + "." + f) == Digits(c)
  {
    CutAtFirst(c, ',');
    var w, f := BeforeFirst(c, ','), AfterFirst(c, ',');
    FilterKeepsDigits(w, NotDot);
    DigitsAppend(Filter(w, NotDot) + ".", f);
    DigitsAppend(Filter(w, NotDot), ".");
    DigitsAppend(w + [','], f);
    DigitsAppend(w, [',']);
  }

  /** Normalisation neither invents nor loses a digit, nor reorders them. */
  lemma NormalizeKeepsDigits(c: string)
    ensures Digits(Normalize(c)) == Digits(c)
  {
    if EndsWith(c, ",--") {
      DashSuffixKeepsDigits(c);
    } else if EndsWith(c, ".-") {
      DotSuffixKeepsDigits(c);
    } else if ',' in c && '.' in c {
      BothSeparatorsKeepDigits(c);
    } else if ',' in c {
      ReplaceKeepsDigits(c);
    }
  }

  lemma DashSuffixKeepsDigits(c: string)
    requires EndsWith(c, ",--")
    ensures Digits(Normalize(c)) == Digits(c)
  {
    forall i | |c| - 3 <= i < |c| ensures !IsDigit(c[i]) {
      assert c[i] == c[|c| - 3..][i - (|c| - 3)];
    }
    SuffixKeepsDigits(c, 3);
  }

  lemma DotSuffixKeepsDigits(c: string)
    requires !EndsWith(c, ",--") && EndsWith(c, ".-")
    ensures Digits(Normalize(c)) == Digits(c)
  {
    forall i | |c| - 2 <= i < |c| ensures !IsDigit(c[i]) {
      assert c[i] == c[|c| - 2..][i - (|c| - 2)];
    }
    SuffixKeepsDigits(c, 2);
  }

  lemma BothSeparatorsKeepDigits(c: string)
    requires !EndsWith(c, ",--") && !EndsWith(c, ".-") && ',' in c && '.' in c
    ensures Digits(Normalize(c)) == Digits(c)
  {
    if |Split(c, ',')| == 2 {
      SplitOnce(c, ',');
      ThousandsKeepsDigits(c);
    }
  }

  lemma DigitsOfClean(s: string)
    ensures Digits(Clean(s)) == Digits(s)
  {
    CleanKeepsPriceChars(s, '0');
    FilterKeepsDigits(s, IsPriceChar);
  }

  lemma HasDigitOfDigits(s: string)
    ensures HasDigit(s) <==> HasDigit(Digits(s))
  {
    DigitsEmptyIffNoDigit(s);
    DigitsEmptyIffNoDigit(Digits(s));
    DigitsOfDigits(Digits(s));
  }

  /** An empty input, or one without a single digit such as `"invalid"`, parses to 0.0. */
  lemma ParsePriceWithoutDigits(priceStr: string)
    requires !HasDigit(priceStr)
    ensures ParsePrice(priceStr) == 0.0
  {
    var n := Normalize(Clean(priceStr));
    assert !HasDigit(n) by {
      DigitsOfClean(priceStr);
      NormalizeKeepsDigits(Clean(priceStr));
      HasDigitOfDigits(priceStr);
      HasDigitOfDigits(n);
    }
    ToFloatNeedsDigit(n);
    ParsePriceByClean(priceStr);
  }

  /** `float()` rejects a string without a digit. */
  lemma ToFloatNeedsDigit(s: string)
    requires !HasDigit(s)
    ensures ToFloat(s) == 0.0
  {
    if |s| > 0 && s[0] == '-' {
      forall i | 0 <= i < |s[1..]| ensures !IsDigit(s[1..][i]) {
        assert s[1..][i] == s[i + 1];
      }
    }
  }

  /** A literal without a minus sign has a non-negative value. */
  lemma ToFloatNonNegative(s: string)
    requires '-' !in s
    ensures ToFloat(s) >= 0.0
  {
    if |s| > 0 {
      assert s[0] in s;
    }
  }

  lemma NormalizeAddsNoMinus(c: string)
    requires '-' !in c
    ensures '-' !in Normalize(c)
  {
    assert c == [] || c[|c| - 1] != '-' by {
      if c != [] { assert c[|c| - 1] in c; }
    }
    NoDashSuffix(c);
    if ',' in c && '.' in c {
      ThousandsAddsNoMinus(c);
    } else if ',' in c {
      var r := Replace(c, ',', '.');
      forall i | 0 <= i < |r| ensures r[i] != '-' {
        assert c[i] in c;
      }
    }
  }

  lemma ThousandsAddsNoMinus(c: string)
    requires '-' !in c && !EndsWith(c, ",--") && !EndsWith(c, ".-") && ',' in c && '.' in c
    ensures '-' !in Normalize(c)
  {
    if |Split(c, ',')| == 2 {
      SplitOnce(c, ',');
      var w, f := BeforeFirst(c, ','), AfterFirst(c, ',');
      assert multiset(c)['-'] == 0;
      assert multiset(w)['-'] == 0 && multiset(f)['-'] == 0 by {
        CutAtFirst(c, ',');
        assert multiset(c) == multiset(w) + multiset([',']) + multiset(f);
      }
      FilterOccurrences(w, NotDot, '-');
      var r := Filter(w, NotDot) + "." + f;
      assert multiset(r) == multiset(Filter(w, NotDot)) + multiset(".") + multiset(f);
      assert multiset(r)['-'] == 0;
    }
  }

  /** Without a minus sign in the raw string the price is never negative. */
  lemma ParsePriceNonNegative(priceStr: string)
    requires '-' !in priceStr
    ensures ParsePrice(priceStr) >= 0.0
  {
    if priceStr != [] {
      var c := Clean(priceStr);
      CleanKeepsPriceChars(priceStr, '-');
      assert multiset(priceStr)['-'] == 0;
      assert '-' !in c;
      NormalizeAddsNoMinus(c);
      ToFloatNonNegative(Normalize(c));
    }
  }

  // ----- the value in each branch of the rewriting -----

  /** Two filters that agree on every character of `s` give the same result. */
  lemma {:induction false} FilterAgree(s: string, keep: char -> bool, keep': char -> bool)
    requires forall i :: 0 <= i < |s| ==> keep(s[i]) == keep'(s[i])
    ensures Filter(s, keep) == Filter(s, keep')
  {
    if s != [] {
      FilterAgree(s[1..], keep, keep');
    }
  }

  lemma DotFreeOfDigits(w: string)
    requires AllDigits(w)
    ensures '.' !in w && ',' !in w && '-' !in w
  {
    forall i | 0 <= i < |w| ensures w[i] != '.' && w[i] != ',' && w[i] != '-' {
      assert IsDigit(w[i]);
    }
  }

  /** `float("w.f")` for digit strings `w` and `f` is the decimal `w.f`; `"."` alone is rejected and,
    * like the empty decimal, counts 0.0. */
  lemma LiteralOfDecimal(w: string, f: string)
    requires AllDigits(w) && AllDigits(f)
    ensures ToFloat(w + "." + f) == DecimalValue(w, f)
  {
    var u := w + "." + f;
    DotFreeOfDigits(w);
    DotFreeOfDigits(f);
    CutAtFirstOf(w, '.', f);
    assert u == w + ['.'] + f;
    CountAppend(w + ['.'], f, '.');
    CountAppend(w, ['.'], '.');
    forall i | 0 <= i < |u| ensures IsDigitOrDot(u[i]) {
      if i < |w| { assert u[i] == w[i]; } else if i > |w| { assert u[i] == f[i - |w| - 1]; }
    }
    assert u[0] != '-';
    if |w| > 0 {
      assert IsDigit(u[0]);
    } else if |f| > 0 {
      assert IsDigit(u[1]);
    } else {
      assert u == ".";
      assert !HasDigit(u);
    }
  }

  /** `float(w)` for a non-empty digit string `w` is its integer value. */
  lemma LiteralOfWhole(w: string)
    requires IsDigitString(w)
    ensures ToFloat(w) == DigitsValue(w) as real
  {
    DotFreeOfDigits(w);
    CutAtFirst(w, '.');
    assert Count(w, '.') == 0;
    assert IsDigit(w[0]) && w[0] != '-';
    forall i | 0 <= i < |w| ensures IsDigitOrDot(w[i]) { assert IsDigit(w[i]); }
    assert HasDigit(w);
    assert IsFloatLiteral(w);
    assert BeforeFirst(w, '.') == w && AfterFirst(w, '.') == [];
    assert DecimalValue(w, []) == DigitsValue(w) as real + 0 as real / 1 as real;
  }

  /** `float()` rejects every string holding a comma. */
  lemma NotLiteralWithComma(s: string)
    requires ',' in s
    ensures !IsFloatLiteral(s)
  {
    var i :| 0 <= i < |s| && s[i] == ',';
    if s[0] == '-' {
      assert s[1..][i - 1] == ',';
    }
  }

  /** `float()` rejects every string holding two dots. */
  lemma NotLiteralWithTwoDots(s: string)
    requires Count(s, '.') >= 2
    ensures !IsFloatLiteral(s)
  {
    if s[0] == '-' {
      assert s == [s[0]] + s[1..];
      CountAppend([s[0]], s[1..], '.');
    }
  }

  /** A string that does not end in `-` takes neither of the two suffix branches. */
  lemma NoDashSuffix(c: string)
    requires c == [] || c[|c| - 1] != '-'
    ensures !EndsWith(c, ",--") && !EndsWith(c, ".-")
  {
  }

  /** A dot-decimal over digits, such as `"12.34"`, is left as it is. */
  lemma NormalizePoint(w: string, f: string)
    requires AllDigits(w) && AllDigits(f)
    ensures Normalize(w + "." + f) == w + "." + f
  {
    var c := w + "." + f;
    DotFreeOfDigits(w);
    DotFreeOfDigits(f);
    NoDashSuffix(c);
    forall i | 0 <= i < |c| ensures c[i] != ',' {
      if i < |w| { assert c[i] == w[i]; } else if i > |w| { assert c[i] == f[i - |w| - 1]; }
    }
  }

  /** A comma-decimal over digits, such as `"24,50"`, has its comma turned into the decimal point. */
  lemma NormalizeComma(w: string, f: string)
    requires AllDigits(w) && AllDigits(f)
    ensures Normalize(w + "," + f) == w + "." + f
  {
    var c := w + "," + f;
    DotFreeOfDigits(w);
    DotFreeOfDigits(f);
    NoDashSuffix(c);
    assert c[|w|] == ',';
    forall i | 0 <= i < |c| ensures c[i] != '.' {
      if i < |w| { assert c[i] == w[i]; } else if i > |w| { assert c[i] == f[i - |w| - 1]; }
    }
    var r := Replace(c, ',', '.');
    forall i | 0 <= i < |c| ensures r[i] == (w + "." + f)[i] {
      if i < |w| { assert c[i] == w[i]; } else if i > |w| { assert c[i] == f[i - |w| - 1]; }
    }
  }

  /** One comma after a part made of digits and thousands dots, such as `"1.234,56"`: the dots go and
    * the comma becomes the decimal point. */
  lemma NormalizeThousands(w: string, f: string)
    requires forall i :: 0 <= i < |w| ==> IsDigitOrDot(w[i])
    requires '.' in w && AllDigits(f)
    ensures Normalize(w + "," + f) == Digits(w) + "." + f
  {
    var c := w + "," + f;
    DotFreeOfDigits(f);
    NoDashSuffix(c);
    assert ',' !in w by {
      forall i | 0 <= i < |w| ensures w[i] != ',' { assert IsDigitOrDot(w[i]); }
    }
    assert c == w + [','] + f;
    CountAppend(w + [','], f, ',');
    CountAppend(w, [','], ',');
    SplitOnce(c, ',');
    CutAtFirstOf(w, ',', f);
    assert c[|w|] == ',';
    var i :| 0 <= i < |w| && w[i] == '.';
    assert c[i] == '.';
    FilterAgree(w, NotDot, IsDigit);
  }

  /** A whole number written with a `,--` or `.-` suffix, such as `"5,--"`: the value of the digits
    * before the suffix, with any separators among them ignored (0.0 for no digit at all). */
  lemma NormalizeWholeSuffix(part: string, suffix: string)
    requires suffix == ",--" || suffix == ".-"
    requires forall i :: 0 <= i < |part| ==> IsDigit(part[i]) || IsSeparator(part[i])
    ensures Normalize(part + suffix) == Digits(part)
    ensures ToFloat(Normalize(part + suffix)) == if HasDigit(part) then DigitsValue(Digits(part)) as real else 0.0
  {
    NormalizeOfSuffix(part, suffix);
    WholeNumberDropsSeparators(part);
    FilterAgree(part, NotSeparator, IsDigit);
    DigitsEmptyIffNoDigit(part);
    if HasDigit(part) {
      LiteralOfWhole(Digits(part));
    }
  }

  /** The suffix branches keep exactly the part before the suffix. */
  lemma NormalizeOfSuffix(part: string, suffix: string)
    requires suffix == ",--" || suffix == ".-"
    ensures Normalize(part + suffix) == WholeNumber(part)
  {
    var c := part + suffix;
    assert c[..|c| - |suffix|] == part;
    assert c[|c| - |suffix|..] == suffix;
    if suffix == ".-" && |c| >= 3 {
      assert c[|c| - 3..][1] == c[|c| - 2] == '.';
    }
  }

  /** With both separators and two or more commas nothing is rewritten, and `float()` rejects it. */
  lemma NormalizeSeveralCommas(c: string)
    requires Count(c, ',') >= 2 && '.' in c
    requires !EndsWith(c, ",--") && !EndsWith(c, ".-")
    ensures Normalize(c) == c
    ensures ToFloat(Normalize(c)) == 0.0
  {
    NotLiteralWithComma(c);
  }

  /** With one comma and a dot after it, such as `"1,234.56"`, the rewriting yields a second dot
    * (`"1.234.56"`), which `float()` rejects. */
  lemma NormalizeCommaThenDot(c: string)
    requires Count(c, ',') == 1 && '.' in AfterFirst(c, ',')
    requires !EndsWith(c, ",--") && !EndsWith(c, ".-")
    ensures ToFloat(Normalize(c)) == 0.0
  {
    CutAtFirst(c, ',');
    SplitOnce(c, ',');
    var w, f := BeforeFirst(c, ','), AfterFirst(c, ',');
    var i :| 0 <= i < |f| && f[i] == '.';
    assert c[|w| + 1 + i] == '.';
    var r := Filter(w, NotDot) + "." + f;
    CountAppend(Filter(w, NotDot) + ".", f, '.');
    CountAppend(Filter(w, NotDot), ".", '.');
    NotLiteralWithTwoDots(r);
  }

  // ----- the parser on whole inputs -----

  /** Characters around a cleaned price that are dropped by cleaning, such as a currency sign, do not
    * change the result. */
  lemma ParsePriceOfCleaned(x: string, p: string, y: string)
    requires forall i :: 0 <= i < |p| ==> IsPriceChar(p[i])
    requires forall i :: 0 <= i < |x| ==> !IsPriceChar(x[i])
    requires forall i :: 0 <= i < |y| ==> !IsPriceChar(y[i])
    ensures ParsePrice(x + p + y) == ToFloat(Normalize(p))
  {
    var s := x + p + y;
    assert Clean(s) == p by {
      CleanKeepsPriceChars(s, '0');
      FilterAppend(x + p, y, IsPriceChar);
      FilterAppend(x, p, IsPriceChar);
      FilterDropsAll(x, IsPriceChar);
      FilterDropsAll(y, IsPriceChar);
      FilterKeepsAll(p, IsPriceChar);
    }
    ParsePriceByClean(s);
  }

  /** The empty-input guard agrees with the general path: the empty string also converts to 0.0. */
  lemma ParsePriceByClean(s: string)
    ensures ParsePrice(s) == ToFloat(Normalize(Clean(s)))
  {
    if s == [] {
      assert Clean(s) == [];
      assert Normalize([]) == [];
      assert !IsFloatLiteral([]);
    }
  }

  lemma PriceCharsOfDecimal(w: string, sep: char, f: string)
    requires AllDigits(w) && AllDigits(f) && IsSeparator(sep)
    ensures forall i :: 0 <= i < |w + [sep] + f| ==> IsPriceChar((w + [sep] + f)[i])
  {
    forall i | 0 <= i < |w + [sep] + f| ensures IsPriceChar((w + [sep] + f)[i]) {
      if i < |w| { assert (w + [sep] + f)[i] == w[i]; }
      else if i > |w| { assert (w + [sep] + f)[i] == f[i - |w| - 1]; }
    }
  }

  /** A decimal `"w.f"` or `"w,f"` over digits, with characters that cleaning drops before and after
    * it (a currency sign, spaces), parses to `w.f`. */
  lemma ParsePriceDecimal(x: string, w: string, sep: char, f: string, y: string)
    requires forall i :: 0 <= i < |x| ==> !IsPriceChar(x[i])
    requires forall i :: 0 <= i < |y| ==> !IsPriceChar(y[i])
    requires AllDigits(w) && AllDigits(f) && IsSeparator(sep)
    ensures ParsePrice(x + w + [sep] + f + y) == DecimalValue(w, f)
  {
    PriceCharsOfDecimal(w, sep, f);
    assert x + w + [sep] + f + y == x + (w + [sep] + f) + y;
    ParsePriceOfCleaned(x, w + [sep] + f, y);
    if sep == '.' {
      NormalizePoint(w, f);
    } else {
      NormalizeComma(w, f);
    }
    LiteralOfDecimal(w, f);
  }

  /** A whole number with a `,--` or `.-` suffix, with dropped characters around it, parses to the
    * value of its digits. */
  lemma ParsePriceWholeSuffix(x: string, part: string, suffix: string, y: string)
    requires forall i :: 0 <= i < |x| ==> !IsPriceChar(x[i])
    requires forall i :: 0 <= i < |y| ==> !IsPriceChar(y[i])
    requires suffix == ",--" || suffix == ".-"
    requires forall i :: 0 <= i < |part| ==> IsDigit(part[i]) || IsSeparator(part[i])
    ensures ParsePrice(x + part + suffix + y) == if HasDigit(part) then DigitsValue(Digits(part)) as real else 0.0
  {
    var p := part + suffix;
    forall i | 0 <= i < |p| ensures IsPriceChar(p[i]) {
      if i < |part| { assert p[i] == part[i]; }
    }
    assert x + part + suffix + y == x + p + y;
    ParsePriceOfCleaned(x, p, y);
    NormalizeWholeSuffix(part, suffix);
  }

  predicate DigitsAndDots(s: string) { forall i :: 0 <= i < |s| ==> IsDigitOrDot(s[i]) }

  lemma PriceCharsOfCommaJoin(w: string, f: string)
    requires DigitsAndDots(w) && DigitsAndDots(f)
    ensures forall i :: 0 <= i < |w + [','] + f| ==> IsPriceChar((w + [','] + f)[i])
    ensures Count(w + [','] + f, ',') == 1
  {
    var p := w + [','] + f;
    forall i | 0 <= i < |p| ensures IsPriceChar(p[i]) {
      if i < |w| { assert p[i] == w[i]; } else if i > |w| { assert p[i] == f[i - |w| - 1]; }
    }
    assert ',' !in w by { forall i | 0 <= i < |w| ensures w[i] != ',' { assert IsDigitOrDot(w[i]); } }
    assert ',' !in f by { forall i | 0 <= i < |f| ensures f[i] != ',' { assert IsDigitOrDot(f[i]); } }
    CountAppend(w + [','], f, ',');
    CountAppend(w, [','], ',');
  }

  /** Thousands dots before a single decimal comma, such as `"1.234,56 €"`: the dots are dropped. */
  lemma ParsePriceThousands(x: string, w: string, f: string, y: string)
    requires forall i :: 0 <= i < |x| ==> !IsPriceChar(x[i])
    requires forall i :: 0 <= i < |y| ==> !IsPriceChar(y[i])
    requires DigitsAndDots(w) && '.' in w && AllDigits(f)
    ensures ParsePrice(x + w + [','] + f + y) == DecimalValue(Digits(w), f)
  {
    assert DigitsAndDots(f) by { forall i | 0 <= i < |f| ensures IsDigitOrDot(f[i]) { assert IsDigit(f[i]); } }
    PriceCharsOfCommaJoin(w, f);
    assert x + w + [','] + f + y == x + (w + [','] + f) + y;
    ParsePriceOfCleaned(x, w + [','] + f, y);
    NormalizeThousands(w, f);
    LiteralOfDecimal(Digits(w), f);
  }

  /** Cutting `w + "," + f` at its comma, where neither part has a comma, and the suffix branches not
    * taken when `f` ends in a digit or a dot. */
  lemma CommaJoinShape(w: string, f: string)
    requires DigitsAndDots(w) && DigitsAndDots(f) && f != []
    ensures AfterFirst(w + [','] + f, ',') == f
    ensures !EndsWith(w + [','] + f, ",--") && !EndsWith(w + [','] + f, ".-")
  {
    var p := w + [','] + f;
    assert ',' !in w by { forall i | 0 <= i < |w| ensures w[i] != ',' { assert IsDigitOrDot(w[i]); } }
    CutAtFirstOf(w, ',', f);
    assert p[|p| - 1] == f[|f| - 1];
    assert IsDigitOrDot(f[|f| - 1]);
    NoDashSuffix(p);
  }

  /** A single comma followed later by a dot, such as `"$1,234.56"`, gives 0.0: the comma is not
    * taken as a thousands separator. */
  lemma ParsePriceCommaThenDot(x: string, w: string, f: string, y: string)
    requires forall i :: 0 <= i < |x| ==> !IsPriceChar(x[i])
    requires forall i :: 0 <= i < |y| ==> !IsPriceChar(y[i])
    requires DigitsAndDots(w) && DigitsAndDots(f) && '.' in f
    ensures ParsePrice(x + w + [','] + f + y) == 0.0
  {
    var p := w + [','] + f;
    PriceCharsOfCommaJoin(w, f);
    assert x + w + [','] + f + y == x + p + y;
    ParsePriceOfCleaned(x, p, y);
    CommaJoinShape(w, f);
    NormalizeCommaThenDot(p);
  }

  // ----- the documented examples -----

  lemma Value24()
    ensures DigitsValue("24") == 24 && DigitsValue("50") == 50
  {
    assert "24"[..1] == "2" && "2"[..0] == "";
    assert "50"[..1] == "5" && "5"[..0] == "";
  }

  lemma Value1234()
    ensures DigitsValue("1234") == 1234 && DigitsValue("56") == 56
    ensures DigitsValue("12") == 12 && DigitsValue("34") == 34
  {
    assert "1234"[..3] == "123" && "123"[..2] == "12" && "12"[..1] == "1" && "1"[..0] == "";
    assert "56"[..1] == "5" && "5"[..0] == "";
    assert "34"[..1] == "3" && "3"[..0] == "";
  }

  lemma DecimalExamples()
    ensures DecimalValue("24", "50") == 24.5
    ensures DecimalValue("12", "34") == 12.34
    ensures DecimalValue("1234", "56") == 1234.56
  {
    Value24();
    Value1234();
    assert Pow10(2) == 100;
  }

  /** `"24,50 €"` parses to 24.5. */
  lemma ParsePriceGermanExample(w: string, f: string, y: string)
    requires w == "24" && f == "50" && y == " €"
    ensures ParsePrice(w + [','] + f + y) == 24.5
  {
    assert w + [','] + f + y == [] + w + [','] + f + y;
    ParsePriceDecimal([], w, ',', f, y);
    DecimalExamples();
  }

  /** `"5,--€"` parses to 5.0. */
  lemma ParsePriceDashExample(part: string, suffix: string, y: string)
    requires part == "5" && suffix == ",--" && y == "€"
    ensures ParsePrice(part + suffix + y) == 5.0
  {
    assert part + suffix + y == [] + part + suffix + y;
    ParsePriceWholeSuffix([], part, suffix, y);
    assert IsDigit(part[0]);
    DigitsOfDigits(part);
    assert part[..0] == "";
  }

  /** `"$12.34"` parses to 12.34. */
  lemma ParsePriceDollarExample(x: string, w: string, f: string)
    requires x == "$" && w == "12" && f == "34"
    ensures ParsePrice(x + w + ['.'] + f) == 12.34
  {
    assert x + w + ['.'] + f == x + w + ['.'] + f + [];
    ParsePriceDecimal(x, w, '.', f, []);
    DecimalExamples();
  }

  /** `"invalid"` parses to 0.0. */
  lemma ParsePriceInvalidExample(s: string)
    requires s == "invalid"
    ensures ParsePrice(s) == 0.0
  {
    assert !HasDigit(s);
    ParsePriceWithoutDigits(s);
  }

  /** The digits of a dot-grouped number are its groups joined. */
  lemma DigitsOfGrouped(a: string, b: string)
    requires AllDigits(a) && AllDigits(b)
    ensures Digits(a + "." + b) == a + b
  {
    DigitsAppend(a + ".", b);
    DigitsAppend(a, ".");
    DigitsOfDigits(a);
    DigitsOfDigits(b);
    DigitsOfNonDigits(".");
  }

  /** A price with one dot as thousands separator and a decimal comma, such as `1.234,56`. */
  lemma ParsePriceGrouped(a: string, b: string, f: string)
    requires AllDigits(a) && AllDigits(b) && AllDigits(f)
    ensures ParsePrice(a + "." + b + [','] + f) == DecimalValue(a + b, f)
  {
    var w := a + "." + b;
    DigitsOfGrouped(a, b);
    assert w + [','] + f == [] + w + [','] + f + [];
    assert w[|a|] == '.';
    assert DigitsAndDots(w) by {
      forall i | 0 <= i < |w| ensures IsDigitOrDot(w[i]) {
        if i < |a| { assert w[i] == a[i]; } else if i > |a| { assert w[i] == b[i - |a| - 1]; }
      }
    }
    ParsePriceThousands([], w, f, []);
  }

  /** `"1.234,56"` parses to 1234.56. */
  lemma ParsePriceThousandsExample(a: string, b: string, f: string)
    requires a == "1" && b == "234" && f == "56"
    ensures ParsePrice(a + "." + b + [','] + f) == 1234.56
  {
    ParsePriceGrouped(a, b, f);
    assert a + b == "1234";
    DecimalExamples();
  }

  /** `"1,234.56"` is rewritten to `"1.234.56"` and gives 0.0. */
  lemma ParsePriceCommaThenDotExample(w: string, f: string)
    requires w == "1" && f == "234.56"
    ensures ParsePrice(w + [','] + f) == 0.0
  {
    assert w + [','] + f == [] + w + [','] + f + [];
    assert f[3] == '.';
    ParsePriceCommaThenDot([], w, f, []);
  }

  // ----- the volume parser -----

  /** `_parse_volume_string`: the value of the digits of the input, or 0 when there is none. */
  function ParseVolume(volumeStr: string): (n: int)
    ensures n >= 0
  {
    if volumeStr == [] then 0
    else
      var cleaned := Digits(Trim(volumeStr));
      if IsDigitString(cleaned) then DigitsValue(cleaned) else 0
  }

  /** The volume is the value of all digits of the input, in order, whatever else surrounds them. */
  lemma ParseVolumeValue(s: string)
    ensures ParseVolume(s) == if HasDigit(s) then DigitsValue(Digits(s)) else 0
  {
    FilterIgnoresTrim(s, IsDigit);
    DigitsEmptyIffNoDigit(s);
  }

  /** A thousands separator, a space or any other non-digit anywhere in the input is ignored. */
  lemma ParseVolumeIgnoresNonDigit(a: string, c: char, b: string)
    requires !IsDigit(c)
    ensures ParseVolume(a + [c] + b) == ParseVolume(a + b)
  {
    var s, t := a + [c] + b, a + b;
    assert Digits(s) == Digits(t) by {
      DigitsAppend(a + [c], b);
      DigitsAppend(a, [c]);
      DigitsAppend(a, b);
      DigitsOfNonDigits([c]);
      assert Digits(a) + [] == Digits(a);
    }
    ParseVolumeValue(s);
    ParseVolumeValue(t);
    HasDigitOfDigits(s);
    HasDigitOfDigits(t);
  }

  /** On a plain digit string the two parsers agree. */
  lemma ParsersAgreeOnDigits(d: string)
    requires IsDigitString(d)
    ensures ParseVolume(d) == DigitsValue(d)
    ensures ParsePrice(d) == ParseVolume(d) as real
  {
    ParseVolumeValue(d);
    DigitsOfDigits(d);
    assert HasDigit(d) by { assert IsDigit(d[0]); }
    DotFreeOfDigits(d);
    forall i | 0 <= i < |d| ensures IsPriceChar(d[i]) { assert IsDigit(d[i]); }
    assert d == [] + d + [];
    ParsePriceOfCleaned([], d, []);
    NoDashSuffix(d);
    LiteralOfWhole(d);
  }

  /** `"1,234"` gives 1234. */
  lemma ParseVolumeThousandsExample(a: string, b: string)
    requires a == "1" && b == "234"
    ensures ParseVolume(a + [','] + b) == 1234
  {
    assert ParseVolume(a + [','] + b) == DigitsValue(a + b) by {
      ParseVolumeIgnoresNonDigit(a, ',', b);
      assert IsDigitString(a + b);
      ParsersAgreeOnDigits(a + b);
    }
    assert a + b == "1234";
    Value1234();
  }

  /** `"5"` gives 5. */
  lemma ParseVolumeSingleExample(d: string)
    requires d == "5"
    ensures ParseVolume(d) == 5
  {
    ParsersAgreeOnDigits(d);
    assert d[..0] == "";
  }

  // ----- the quote -----

  /** One quote of the price overview. */
  datatype MarketData = MarketData(lowestPrice: real, medianPrice: real, volume: int,
                                   spreadAbsolute: real, spreadPercentage: real)
  {
    /** A quote is usable when it has a positive lowest price and at least one sale. */
    predicate HasValidData() { lowestPrice > 0.0 && volume > 0 }
  }

  /** Validity depends on the lowest price and the volume only: a zero median does not invalidate. */
  lemma ValidityIgnoresMedianAndSpread(m: MarketData, median: real, spreadAbs: real, spreadPct: real)
    ensures m.(medianPrice := median, spreadAbsolute := spreadAbs, spreadPercentage := spreadPct).HasValidData()
            == (m.lowestPrice > 0.0 && m.volume > 0)
  {
  }

  function Abs(x: real): (r: real)
    ensures r >= 0.0 && (r == x || r == -x)
  {
    if x < 0.0 then -x else x
  }

  /** The absolute spread: the distance between median and lowest price when both are known. */
  function SpreadAbsolute(lowest: real, median: real): (r: real)
    ensures r >= 0.0
    ensures lowest > 0.0 && median > 0.0 ==> median == lowest + r || lowest == median + r
    ensures !(lowest > 0.0 && median > 0.0) ==> r == 0.0
  {
    if median > 0.0 && lowest > 0.0 then Abs(median - lowest) else 0.0
  }

  /** The relative spread in percent of the lowest price, 0.0 when either is not positive. */
  function SpreadPercentage(lowest: real, spreadAbs: real): (r: real)
    ensures r >= 0.0
    ensures r > 0.0 <==> lowest > 0.0 && spreadAbs > 0.0
    ensures lowest > 0.0 && spreadAbs > 0.0 ==> r * lowest == 100.0 * spreadAbs
  {
    if lowest > 0.0 && spreadAbs > 0.0 then (spreadAbs / lowest) * 100.0 else 0.0
  }

  /** The spread does not depend on which of the two prices is the larger. */
  lemma SpreadSymmetric(lowest: real, median: real)
    ensures SpreadAbsolute(lowest, median) == SpreadAbsolute(median, lowest)
  {
  }

  /** The spread fields of a quote agree with its two prices: the absolute spread is their distance
    * when both are positive (0.0 otherwise), and the relative spread is that distance in percent of
    * the lowest price. */
  predicate SpreadConsistent(m: MarketData) {
    && m.spreadAbsolute >= 0.0 && m.spreadPercentage >= 0.0
    && (m.lowestPrice > 0.0 && m.medianPrice > 0.0 ==>
          m.medianPrice == m.lowestPrice + m.spreadAbsolute || m.lowestPrice == m.medianPrice + m.spreadAbsolute)
    && (!(m.lowestPrice > 0.0 && m.medianPrice > 0.0) ==> m.spreadAbsolute == 0.0)
    && (m.spreadPercentage > 0.0 <==> m.lowestPrice > 0.0 && m.spreadAbsolute > 0.0)
    && (m.spreadAbsolute > 0.0 ==> m.spreadPercentage * m.lowestPrice == 100.0 * m.spreadAbsolute)
  }

  /** The quote built from parsed prices and volume, with its spreads computed. */
  function Assemble(lowest: real, median: real, volume: int): (m: MarketData)
    ensures m.lowestPrice == lowest && m.medianPrice == median && m.volume == volume
    ensures SpreadConsistent(m)
  {
    var spreadAbs := SpreadAbsolute(lowest, median);
    MarketData(lowest, median, volume, spreadAbs, SpreadPercentage(lowest, spreadAbs))
  }

  /** The quote assembled from the three raw fields of a successful response (a missing field is the
    * empty string). */
  function QuoteOf(lowestRaw: string, medianRaw: string, volumeRaw: string): (m: MarketData)
    ensures m.lowestPrice == ParsePrice(lowestRaw) && m.medianPrice == ParsePrice(medianRaw)
    ensures m.volume == ParseVolume(volumeRaw) && m.volume >= 0
    ensures SpreadConsistent(m)
  {
    Assemble(ParsePrice(lowestRaw), ParsePrice(medianRaw), ParseVolume(volumeRaw))
  }

  /** A response whose lowest price or volume carries no digit (an absent field included) never gives a
    * usable quote. */
  lemma QuoteWithoutDigitsInvalid(lowestRaw: string, medianRaw: string, volumeRaw: string)
    requires !HasDigit(lowestRaw) || !HasDigit(volumeRaw)
    ensures !QuoteOf(lowestRaw, medianRaw, volumeRaw).HasValidData()
  {
    if !HasDigit(lowestRaw) {
      ParsePriceWithoutDigits(lowestRaw);
    } else {
      ParseVolumeValue(volumeRaw);
    }
  }
}
