/**
 * ASCII text helpers standing in for the Python string methods the program
 * uses: `str.isdigit`, `str.isalnum`, `str.isspace`, `str.strip`, `str.lower`,
 * `str.endswith`, `str.count`, character filtering with `re.sub` and the
 * decimal value of a digit string as `int(...)` computes it.
 * Unicode categories are not modelled: a digit is '0'..'9', a letter is
 * 'A'..'Z' or 'a'..'z', and whitespace is the ASCII part of Python's
 * whitespace set.
 */
module Text {

  predicate IsDigit(c: char) { '0' <= c <= '9' }

  predicate IsLetter(c: char) { 'A' <= c <= 'Z' || 'a' <= c <= 'z' }

  /** `str.isalnum` on one ASCII character. */
  predicate IsAlnum(c: char) { IsDigit(c) || IsLetter(c) }

  /** `str.isspace` on one ASCII character: space, \t \n \v \f \r and the separators \x1c..\x1f. */
  predicate IsSpace(c: char) { c == ' ' || 9 <= c as int <= 13 || 28 <= c as int <= 31 }

  /** Every character of `s` is a digit (true of the empty string). */
  predicate AllDigits(s: string) { forall i :: 0 <= i < |s| ==> IsDigit(s[i]) }

  /** `str.isdigit`: non-empty and made only of digits. */
  predicate IsDigitString(s: string) { |s| > 0 && AllDigits(s) }

  predicate HasDigit(s: string) { exists i :: 0 <= i < |s| && IsDigit(s[i]) }

  predicate EndsWith(s: string, suffix: string) {
    |suffix| <= |s| && s[|s| - |suffix|..] == suffix
  }

  /** Number of occurrences of `c` in `s` (`str.count`). */
  function Count(s: string, c: char): (n: nat)
    ensures n <= |s|
    ensures n == 0 <==> c !in s
  {
    if s == [] then 0 else (if s[0] == c then 1 else 0) + Count(s[1..], c)
  }

  lemma {:induction false} CountAppend(a: string, b: string, c: char)
    ensures Count(a + b, c) == Count(a, c) + Count(b, c)
  {
    if a == [] {
      assert a + b == b;
    } else {
      assert (a + b)[1..] == a[1..] + b;
      CountAppend(a[1..], b, c);
    }
  }

  /** The characters of `s` that satisfy `keep`, in their original order. */
  function Filter(s: string, keep: char -> bool): (r: string)
    ensures |r| <= |s|
    ensures forall i :: 0 <= i < |r| ==> keep(r[i])
  {
    if s == [] then [] else (if keep(s[0]) then [s[0]] else []) + Filter(s[1..], keep)
  }

  /** Filtering a concatenation filters each part: the filter never reorders characters. */
  lemma {:induction false} FilterAppend(a: string, b: string, keep: char -> bool)
    ensures Filter(a + b, keep) == Filter(a, keep) + Filter(b, keep)
  {
    if a == [] {
      assert a + b == b;
    } else {
      assert (a + b)[1..] == a[1..] + b;
      FilterAppend(a[1..], b, keep);
    }
  }

  /** A character either survives the filter with all of its occurrences, or not at all. */
  lemma {:induction false} FilterOccurrences(s: string, keep: char -> bool, c: char)
    ensures multiset(Filter(s, keep))[c] == if keep(c) then multiset(s)[c] else 0
  {
    if s != [] {
      FilterOccurrences(s[1..], keep, c);
      assert s == [s[0]] + s[1..];
    }
  }

  lemma {:induction false} FilterKeepsAll(s: string, keep: char -> bool)
    requires forall i :: 0 <= i < |s| ==> keep(s[i])
    ensures Filter(s, keep) == s
  {
    if s != [] {
      FilterKeepsAll(s[1..], keep);
    }
  }

  lemma {:induction false} FilterDropsAll(s: string, keep: char -> bool)
    requires forall i :: 0 <= i < |s| ==> !keep(s[i])
    ensures Filter(s, keep) == []
  {
    if s != [] {
      FilterDropsAll(s[1..], keep);
    }
  }

  /** The digits of `s`, in order: what `re.sub(r'[^\d]', '', s)` leaves. */
  function Digits(s: string): (r: string)
    ensures AllDigits(r)
  {
    Filter(s, IsDigit)
  }

  lemma DigitsAppend(a: string, b: string)
    ensures Digits(a + b) == Digits(a) + Digits(b)
  {
    FilterAppend(a, b, IsDigit);
  }

  lemma {:induction false} DigitsEmptyIffNoDigit(s: string)
    ensures Digits(s) == [] <==> !HasDigit(s)
  {
    if s != [] {
      DigitsEmptyIffNoDigit(s[1..]);
      if IsDigit(s[0]) {
        assert Digits(s)[0] == s[0];
      } else {
        assert Digits(s) == Digits(s[1..]);
        if HasDigit(s) {
          var i :| 0 <= i < |s| && IsDigit(s[i]);
          assert s[1..][i - 1] == s[i];
        }
        if HasDigit(s[1..]) {
          var i :| 0 <= i < |s[1..]| && IsDigit(s[1..][i]);
          assert s[i + 1] == s[1..][i];
        }
      }
    }
  }

  lemma DigitsOfDigits(s: string)
    requires AllDigits(s)
    ensures Digits(s) == s
  {
    FilterKeepsAll(s, IsDigit);
  }

  function Pow10(n: nat): (p: nat)
    ensures p >= 1
  {
    if n == 0 then 1 else 10 * Pow10(n - 1)
  }

  function DigitValue(c: char): nat
    requires IsDigit(c)
  {
    (c as int - '0' as int) as nat
  }

  /** The value of a digit string read left to right, as `int(...)` reads it. */
  function DigitsValue(s: string): (v: nat)
    requires AllDigits(s)
    ensures v < Pow10(|s|)
  {
    if s == [] then 0 else DigitsValue(s[..|s| - 1]) * 10 + DigitValue(s[|s| - 1])
  }

  lemma AllDigitsAppend(a: string, b: string)
    requires AllDigits(a) && AllDigits(b)
    ensures AllDigits(a + b)
  {
    forall i | 0 <= i < |a + b| ensures IsDigit((a + b)[i]) {
      if i < |a| { assert (a + b)[i] == a[i]; } else { assert (a + b)[i] == b[i - |a|]; }
    }
  }

  /** Shifting `x * p + y` by one place and adding `d` shifts `x` by one place more. */
  lemma ShiftStep(v: int, w: int, x: int, p: int, y: int, d: int, q: int, u: int)
    requires v == w * 10 + d && w == x * p + y && q == 10 * p && u == y * 10 + d
    ensures v == x * q + u
  {
  }

  /** Reading the last digit: the value of the rest, shifted by one place, plus that digit. */
  lemma DigitsValueLast(s: string)
    requires AllDigits(s) && s != []
    ensures AllDigits(s[..|s| - 1]) && IsDigit(s[|s| - 1])
    ensures DigitsValue(s) == DigitsValue(s[..|s| - 1]) * 10 + DigitValue(s[|s| - 1])
  {
  }

  /** Reading a concatenation: the left part is shifted by the length of the right part. */
  lemma {:induction false} DigitsValueAppend(a: string, b: string)
    requires AllDigits(a) && AllDigits(b)
    ensures AllDigits(a + b)
    ensures DigitsValue(a + b) == DigitsValue(a) * Pow10(|b|) + DigitsValue(b)
  {
    AllDigitsAppend(a, b);
    if b == [] {
      assert a + b == a;
    } else {
      var c := a + b;
      var b' := b[..|b| - 1];
      assert c[..|c| - 1] == a + b';
      assert c[|c| - 1] == b[|b| - 1];
      DigitsValueLast(b);
      DigitsValueLast(c);
      DigitsValueAppend(a, b');
      ShiftStep(DigitsValue(c), DigitsValue(a + b'), DigitsValue(a), Pow10(|b'|), DigitsValue(b'),
                DigitValue(b[|b| - 1]), Pow10(|b|), DigitsValue(b));
    }
  }

  /** The number of whitespace characters `s` starts with. */
  function LeadingSpaces(s: string): (k: nat)
    ensures k <= |s|
  {
    if s != [] && IsSpace(s[0]) then 1 + LeadingSpaces(s[1..]) else 0
  }

  /** The number of whitespace characters `s` ends with. */
  function TrailingSpaces(s: string): (k: nat)
    ensures k <= |s|
  {
    if s != [] && IsSpace(s[|s| - 1]) then 1 + TrailingSpaces(s[..|s| - 1]) else 0
  }

  /** The leading run is all whitespace and the character after it is not. */
  lemma {:induction false} LeadingSpacesSpec(s: string)
    ensures forall i :: 0 <= i < LeadingSpaces(s) ==> IsSpace(s[i])
    ensures LeadingSpaces(s) < |s| ==> !IsSpace(s[LeadingSpaces(s)])
  {
    if s != [] && IsSpace(s[0]) {
      var k := LeadingSpaces(s);
      LeadingSpacesSpec(s[1..]);
      forall i | 1 <= i < k ensures IsSpace(s[i]) {
        assert s[i] == s[1..][i - 1];
      }
      if k < |s| {
        assert s[k] == s[1..][k - 1];
      }
    }
  }

  /** The trailing run is all whitespace and the character before it is not. */
  lemma {:induction false} TrailingSpacesSpec(s: string)
    ensures forall i :: |s| - TrailingSpaces(s) <= i < |s| ==> IsSpace(s[i])
    ensures TrailingSpaces(s) < |s| ==> !IsSpace(s[|s| - TrailingSpaces(s) - 1])
  {
    if s != [] && IsSpace(s[|s| - 1]) {
      var init := s[..|s| - 1];
      TrailingSpacesSpec(init);
      forall i | |s| - TrailingSpaces(s) <= i < |s| - 1 ensures IsSpace(s[i]) {
        assert s[i] == init[i];
      }
    }
  }

  /** Python's `str.lstrip()`. */
  function TrimStart(s: string): string
  {
    s[LeadingSpaces(s)..]
  }

  /** Python's `str.rstrip()`. */
  function TrimEnd(s: string): string
  {
    s[..|s| - TrailingSpaces(s)]
  }

  /** Python's `str.strip()`: drops leading and trailing whitespace. */
  function Trim(s: string): string
  {
    TrimEnd(TrimStart(s))
  }

  /** Stripping leaves a contiguous part of the input that neither starts nor ends with whitespace,
    * and everything it removed was whitespace; the result is empty exactly for all-blank input. */
  lemma TrimSpec(s: string)
    ensures exists a, b :: 0 <= a <= b <= |s| && Trim(s) == s[a..b]
                          && (forall i :: 0 <= i < a ==> IsSpace(s[i]))
                          && (forall i :: b <= i < |s| ==> IsSpace(s[i]))
    ensures Trim(s) == [] || (!IsSpace(Trim(s)[0]) && !IsSpace(Trim(s)[|Trim(s)| - 1]))
    ensures Trim(s) == [] <==> forall i :: 0 <= i < |s| ==> IsSpace(s[i])
  {
    var t := TrimStart(s);
    var a := LeadingSpaces(s);
    LeadingSpacesSpec(s);
    var m := TrailingSpaces(t);
    TrailingSpacesSpec(t);
    var r := Trim(s);
    var b := |s| - m;
    assert r == s[a..b];
    forall i | b <= i < |s| ensures IsSpace(s[i]) {
      assert s[i] == t[i - a];
    }
    TrimEnds(s);
  }

  /** The stripped form neither starts nor ends with whitespace. */
  lemma TrimEnds(s: string)
    ensures Trim(s) == [] || (!IsSpace(Trim(s)[0]) && !IsSpace(Trim(s)[|Trim(s)| - 1]))
  {
    var t := TrimStart(s);
    var a := LeadingSpaces(s);
    LeadingSpacesSpec(s);
    var m := TrailingSpaces(t);
    TrailingSpacesSpec(t);
    var r := Trim(s);
    if r != [] {
      assert r[0] == t[0] == s[a];
      assert r[|r| - 1] == t[|t| - m - 1];
    }
  }

  /** Stripping removes only whitespace: every other character occurs as often as before. */
  lemma TrimKeepsNonSpace(s: string, c: char)
    requires !IsSpace(c)
    ensures multiset(Trim(s))[c] == multiset(s)[c]
  {
    TrimStartKeepsNonSpace(s, c);
    TrimEndKeepsNonSpace(TrimStart(s), c);
  }

  lemma TrimStartKeepsNonSpace(s: string, c: char)
    requires !IsSpace(c)
    ensures multiset(TrimStart(s))[c] == multiset(s)[c]
  {
    var k := LeadingSpaces(s);
    LeadingSpacesSpec(s);
    assert s == s[..k] + s[k..];
    assert c !in s[..k];
    AbsentCharCount(s[..k], s[k..], c);
  }

  lemma TrimEndKeepsNonSpace(t: string, c: char)
    requires !IsSpace(c)
    ensures multiset(TrimEnd(t))[c] == multiset(t)[c]
  {
    var m := |t| - TrailingSpaces(t);
    TrailingSpacesSpec(t);
    assert t == t[..m] + t[m..];
    assert c !in t[m..] by {
      forall i | 0 <= i < |t[m..]| ensures t[m..][i] != c {
        assert t[m..][i] == t[m + i];
      }
    }
    AbsentCharCount(t[m..], t[..m], c);
  }

  /** Joining a string without `c` on either side does not change how often `c` occurs. */
  lemma AbsentCharCount(a: string, b: string, c: char)
    requires c !in a
    ensures multiset(a + b)[c] == multiset(b)[c] && multiset(b + a)[c] == multiset(b)[c]
  {
    assert multiset(a + b) == multiset(a) + multiset(b);
    assert multiset(b + a) == multiset(b) + multiset(a);
    assert multiset(a)[c] == 0;
  }

  /** Stripping only removes characters: what is left occurred in the input. */
  lemma TrimWithin(s: string)
    ensures multiset(Trim(s)) <= multiset(s)
  {
    var k := LeadingSpaces(s);
    var t := TrimStart(s);
    assert s == s[..k] + t;
    var r := TrimEnd(t);
    assert t == r + t[|r|..];
  }

  /** A string that neither starts nor ends with whitespace is its own stripped form. */
  lemma TrimOfStripped(s: string)
    requires s == [] || (!IsSpace(s[0]) && !IsSpace(s[|s| - 1]))
    ensures Trim(s) == s
  {
    if s != [] {
      assert TrimStart(s) == s[0..] == s;
    }
  }

  /** Stripping twice is stripping once. */
  lemma TrimIdempotent(s: string)
    ensures Trim(Trim(s)) == Trim(s)
  {
    TrimSpec(s);
    TrimOfStripped(Trim(s));
  }

  function ToLower(c: char): char {
    if 'A' <= c <= 'Z' then (c as int + 32) as char else c
  }

  /** `str.lower()` on ASCII letters; every other character is unchanged. */
  function Lower(s: string): (r: string)
    ensures |r| == |s|
    ensures forall i :: 0 <= i < |s| ==> r[i] == ToLower(s[i])
  {
    seq(|s|, i requires 0 <= i < |s| => ToLower(s[i]))
  }

  predicate IsUpper(c: char) { 'A' <= c <= 'Z' }

  /** After `lower()` no ASCII capital is left, a second `lower()` changes nothing, a string without
    * capitals is its own lower case, and lower-casing commutes with concatenation. */
  lemma LowerSpec(s: string, t: string)
    ensures forall i :: 0 <= i < |Lower(s)| ==> !IsUpper(Lower(s)[i])
    ensures Lower(Lower(s)) == Lower(s)
    ensures (forall i :: 0 <= i < |s| ==> !IsUpper(s[i])) ==> Lower(s) == s
    ensures Lower(s + t) == Lower(s) + Lower(t)
  {
    assert Lower(Lower(s)) == Lower(s) by {
      forall i | 0 <= i < |s| ensures Lower(Lower(s))[i] == Lower(s)[i] {
        assert !IsUpper(Lower(s)[i]);
      }
    }
  }

  /** The part of `s` before the first `c` (all of `s` when `c` does not occur). */
  function BeforeFirst(s: string, c: char): (r: string)
    ensures c !in r
  {
    if s == [] || s[0] == c then [] else [s[0]] + BeforeFirst(s[1..], c)
  }

  /** The part of `s` after the first `c` (empty when `c` does not occur). */
  function AfterFirst(s: string, c: char): string
  {
    if s == [] then [] else if s[0] == c then s[1..] else AfterFirst(s[1..], c)
  }

  /** Cutting at the first `c` and gluing the pieces back together gives `s` again. */
  lemma {:induction false} CutAtFirst(s: string, c: char)
    ensures c in s ==> s == BeforeFirst(s, c) + [c] + AfterFirst(s, c)
    ensures c !in s ==> BeforeFirst(s, c) == s && AfterFirst(s, c) == []
  {
    if s != [] && s[0] != c {
      CutAtFirst(s[1..], c);
      assert s == [s[0]] + s[1..];
    }
  }

  /** Cutting `a + [c] + b` where `a` has no `c` gives back `a` and `b`. */
  lemma {:induction false} CutAtFirstOf(a: string, c: char, b: string)
    requires c !in a
    ensures BeforeFirst(a + [c] + b, c) == a
    ensures AfterFirst(a + [c] + b, c) == b
  {
    if a != [] {
      assert (a + [c] + b)[1..] == a[1..] + [c] + b;
      CutAtFirstOf(a[1..], c, b);
    } else {
      assert a + [c] + b == [c] + b;
    }
  }

  /** Python's `str.split(c)`: the pieces between occurrences of `c`. */
  function Split(s: string, c: char): (parts: seq<string>)
    ensures |parts| == Count(s, c) + 1
  {
    if s == [] then [[]]
    else
      var rest := Split(s[1..], c);
      if s[0] == c then [[]] + rest else [[s[0]] + rest[0]] + rest[1..]
  }

  /** With exactly one occurrence, `split` gives the parts before and after it. */
  lemma {:induction false} SplitOnce(s: string, c: char)
    requires Count(s, c) == 1
    ensures Split(s, c) == [BeforeFirst(s, c), AfterFirst(s, c)]
  {
    if s[0] == c {
      assert Count(s[1..], c) == 0;
      SplitNone(s[1..], c);
    } else {
      SplitOnce(s[1..], c);
    }
  }

  lemma {:induction false} SplitNone(s: string, c: char)
    requires Count(s, c) == 0
    ensures Split(s, c) == [s]
  {
    if s != [] {
      SplitNone(s[1..], c);
      assert s == [s[0]] + s[1..];
    }
  }

  /** Python's `str.replace(a, b)` for single characters. */
  function Replace(s: string, a: char, b: char): (r: string)
    ensures |r| == |s|
    ensures forall i :: 0 <= i < |s| ==> r[i] == if s[i] == a then b else s[i]
  {
    seq(|s|, i requires 0 <= i < |s| => if s[i] == a then b else s[i])
  }

  /** After `replace(a, b)` with `a != b` no `a` is left; every `a` has become a `b`, so the `b`s are
    * those of `s` plus its `a`s; a string without `a` is unchanged. */
  lemma {:induction false} ReplaceSpec(s: string, a: char, b: char)
    ensures a != b ==> a !in Replace(s, a, b)
    ensures a != b ==> Count(Replace(s, a, b), b) == Count(s, b) + Count(s, a)
    ensures a !in s ==> Replace(s, a, b) == s
  {
    var r := Replace(s, a, b);
    if s != [] {
      ReplaceSpec(s[1..], a, b);
      assert r[1..] == Replace(s[1..], a, b);
      assert r[0] == if s[0] == a then b else s[0];
      if a !in s {
        assert a !in s[1..] by {
          forall i | 0 <= i < |s[1..]| ensures s[1..][i] != a {
            assert s[1..][i] == s[i + 1];
          }
        }
        assert r == [r[0]] + r[1..];
      }
    }
  }
}
