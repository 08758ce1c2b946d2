/**
 * The handful of Python `str` operations the pipeline relies on:
 * `find`, `in`, `startswith`/`endswith`, `upper`, `strip`, `split`,
 * `replace(c, '')`, `str(int)`, `zfill`, and the decimal subset of `float()`.
 */
module Text {
  import opened Wrappers

  // ---------------------------------------------------------------------
  // Substring search (`str.find`, `in`)
  // ---------------------------------------------------------------------

  /** `pat` occurs in `s` starting at index `i`. */
  predicate IsAt(s: string, pat: string, i: int) {
    0 <= i && i + |pat| <= |s| && s[i..i + |pat|] == pat
  }

  /** Python's `pat in s`. */
  predicate Contains(s: string, pat: string) {
    exists i :: 0 <= i <= |s| && IsAt(s, pat, i)
  }

  /** Python's `s.find(pat, i)` for a start index inside the string. */
  function FindFrom(s: string, pat: string, i: nat): (r: int)
    requires i <= |s|
    decreases |s| - i
    ensures r == -1 || (i <= r <= |s| && IsAt(s, pat, r))
    ensures r == -1 ==> forall j :: i <= j <= |s| ==> !IsAt(s, pat, j)
    ensures r != -1 ==> forall j :: i <= j < r ==> !IsAt(s, pat, j)
  {
    if IsAt(s, pat, i) then i
    else if i == |s| then -1
    else FindFrom(s, pat, i + 1)
  }

  /** Python's `s.find(pat)`: the lowest index of `pat` in `s`, or -1. */
  function Find(s: string, pat: string): (r: int)
    ensures -1 <= r <= |s|
    ensures r >= 0 <==> Contains(s, pat)
    ensures r >= 0 ==> IsAt(s, pat, r)
    ensures forall j :: 0 <= j < r ==> !IsAt(s, pat, j)
  {
    FindFrom(s, pat, 0)
  }

  /** Python's `s.startswith(p)`. */
  predicate StartsWith(s: string, p: string) {
    |p| <= |s| && s[..|p|] == p
  }

  /** Python's `s.endswith(p)`. */
  predicate EndsWith(s: string, p: string) {
    |p| <= |s| && s[|s| - |p|..] == p
  }

  lemma EndsWithAppend(a: string, p: string)
    ensures EndsWith(a + p, p)
  {
    assert (a + p)[|a + p| - |p|..] == p;
  }

  // ---------------------------------------------------------------------
  // Case folding (`str.upper`, ASCII letters)
  // ---------------------------------------------------------------------

  function UpperChar(c: char): char {
    if 'a' <= c <= 'z' then (c as int - 32) as char else c
  }

  /** `s.upper()` restricted to ASCII letters; every other character is kept. */
  function Upper(s: string): (r: string)
    ensures |r| == |s|
    ensures forall i :: 0 <= i < |s| ==> r[i] == UpperChar(s[i])
  {
    if s == [] then [] else [UpperChar(s[0])] + Upper(s[1..])
  }

  /** Upper-casing twice is upper-casing once. */
  lemma UpperIdempotent(s: string)
    ensures Upper(Upper(s)) == Upper(s)
  {
    var u := Upper(s);
    assert forall i :: 0 <= i < |u| ==> UpperChar(u[i]) == u[i];
  }

  // ---------------------------------------------------------------------
  // Whitespace (`str.strip`)
  // ---------------------------------------------------------------------

  /** The characters for which Python's `str.isspace()` holds. */
  predicate IsSpace(c: char) {
    var n := c as int;
    (9 <= n <= 13) || (28 <= n <= 32) || n == 0x85 || n == 0xA0 || n == 0x1680
    || (0x2000 <= n <= 0x200A) || n == 0x2028 || n == 0x2029 || n == 0x202F
    || n == 0x205F || n == 0x3000
  }

  function TrimStart(s: string): (r: string)
    ensures |r| <= |s| && r == s[|s| - |r|..]
    ensures forall i :: 0 <= i < |s| - |r| ==> IsSpace(s[i])
    ensures r == [] || !IsSpace(r[0])
  {
    if |s| > 0 && IsSpace(s[0]) then TrimStart(s[1..]) else s
  }

  function TrimEnd(s: string): (r: string)
    ensures |r| <= |s| && r == s[..|r|]
    ensures forall i :: |r| <= i < |s| ==> IsSpace(s[i])
    ensures r == [] || !IsSpace(r[|r| - 1])
  {
    if |s| > 0 && IsSpace(s[|s| - 1]) then TrimEnd(s[..|s| - 1]) else s
  }

  /** How many whitespace characters `s` starts with. */
  function LeadingSpaces(s: string): nat {
    |s| - |TrimStart(s)|
  }

  /**
   * Python's `s.strip()`: the result is the slice of `s` that starts after
   * its leading whitespace, everything cut off on either side is
   * whitespace, and the result neither starts nor ends with whitespace.
   */
  function Strip(s: string): (r: string)
    ensures LeadingSpaces(s) + |r| <= |s|
    ensures r == s[LeadingSpaces(s)..LeadingSpaces(s) + |r|]
    ensures forall i :: 0 <= i < LeadingSpaces(s) ==> IsSpace(s[i])
    ensures forall i :: LeadingSpaces(s) + |r| <= i < |s| ==> IsSpace(s[i])
    ensures r == [] || (!IsSpace(r[0]) && !IsSpace(r[|r| - 1]))
  {
    var t := TrimStart(s);
    var r := TrimEnd(t);
    var a := |s| - |t|;
    forall i | a + |r| <= i < |s| ensures IsSpace(s[i]) {
      assert s[i] == t[i - a];
    }
    r
  }

  /** A string with no surrounding whitespace is left alone by `strip`. */
  lemma StripNoSpace(s: string)
    requires s == [] || (!IsSpace(s[0]) && !IsSpace(s[|s| - 1]))
    ensures Strip(s) == s
  {
  }

  // ---------------------------------------------------------------------
  // Splitting on a separator character (`str.split(sep)`)
  // ---------------------------------------------------------------------

  /** Index of the first `c` in `s`. */
  function FirstIndex(s: string, c: char): (r: nat)
    requires c in s
    ensures r < |s| && s[r] == c && c !in s[..r]
  {
    if s[0] == c then 0 else 1 + FirstIndex(s[1..], c)
  }

  /** Python's `s.split(sep)` for a one-character separator. */
  function Split(s: string, sep: char): (r: seq<string>)
    decreases |s|
    ensures |r| >= 1
    ensures forall k :: 0 <= k < |r| ==> sep !in r[k]
  {
    if sep !in s then [s]
    else
      var k := FirstIndex(s, sep);
      [s[..k]] + Split(s[k + 1..], sep)
  }

  /** Python's `sep.join(parts)`. */
  function JoinWith(parts: seq<string>, sep: char): string
    requires |parts| >= 1
  {
    if |parts| == 1 then parts[0] else parts[0] + [sep] + JoinWith(parts[1..], sep)
  }

  /** Splitting and re-joining gives the original string back. */
  lemma {:induction false} SplitJoin(s: string, sep: char)
    decreases |s|
    ensures JoinWith(Split(s, sep), sep) == s
  {
    if sep in s {
      var k := FirstIndex(s, sep);
      var head, tail := s[..k], s[k + 1..];
      var rest := Split(tail, sep);
      SplitJoin(tail, sep);
      assert Split(s, sep) == [head] + rest;
      assert ([head] + rest)[1..] == rest;
      assert JoinWith([head] + rest, sep) == head + [sep] + JoinWith(rest, sep);
      assert s == head + [sep] + tail;
    }
  }

  /** The first `c` after a `c`-free prefix `a` is at index `|a|`. */
  lemma {:induction false} FirstIndexAfter(a: string, c: char, b: string)
    requires c !in a
    ensures c in a + [c] + b && FirstIndex(a + [c] + b, c) == |a|
  {
    var s := a + [c] + b;
    assert s[|a|] == c;
    if a != [] {
      assert s[1..] == a[1..] + [c] + b;
      FirstIndexAfter(a[1..], c, b);
    }
  }

  /** A separator-free head is split off as the first token. */
  lemma SplitAfterToken(a: string, sep: char, b: string)
    requires sep !in a
    ensures Split(a + [sep] + b, sep) == [a] + Split(b, sep)
  {
    var s := a + [sep] + b;
    FirstIndexAfter(a, sep, b);
    assert s[..|a|] == a;
    assert s[|a| + 1..] == b;
  }

  /** Python's `s.split(sep)[1]`; `None` where that raises `IndexError`. */
  function SecondToken(s: string, sep: char): (r: Option<string>)
    ensures r.None? <==> sep !in s
    ensures r.Some? ==> sep !in r.value
  {
    var parts := Split(s, sep);
    if |parts| < 2 then None else Some(parts[1])
  }

  // ---------------------------------------------------------------------
  // Character removal (`str.replace(c, '')`)
  // ---------------------------------------------------------------------

  /** `s.replace(c, '')`: `s` with every `c` removed, the rest kept in order. */
  function RemoveChar(s: string, c: char): string {
    if s == [] then [] else (if s[0] == c then [] else [s[0]]) + RemoveChar(s[1..], c)
  }

  /** No `c` is left, and every other character keeps its number of occurrences. */
  lemma {:induction false} RemoveCharFacts(s: string, c: char)
    ensures c !in RemoveChar(s, c)
    ensures multiset(RemoveChar(s, c)) == multiset(s)[c := 0]
  {
    if s != [] {
      assert s == [s[0]] + s[1..];
      RemoveCharFacts(s[1..], c);
    }
  }

  /** Removing a character from two strings joined is removing it from each. */
  lemma {:induction false} RemoveCharAppend(a: string, b: string, c: char)
    ensures RemoveChar(a + b, c) == RemoveChar(a, c) + RemoveChar(b, c)
  {
    if a != [] {
      var h := if a[0] == c then [] else [a[0]];
      assert (a + b)[0] == a[0];
      assert (a + b)[1..] == a[1..] + b;
      assert RemoveChar(a + b, c) == h + RemoveChar(a[1..] + b, c);
      assert RemoveChar(a, c) == h + RemoveChar(a[1..], c);
      RemoveCharAppend(a[1..], b, c);
      assert h + (RemoveChar(a[1..], c) + RemoveChar(b, c)) == (h + RemoveChar(a[1..], c)) + RemoveChar(b, c);
    } else {
      assert a + b == b;
    }
  }

  /** Removing a character that does not occur changes nothing. */
  lemma RemoveAbsentChar(s: string, c: char)
    requires c !in s
    ensures RemoveChar(s, c) == s
  {
    if s != [] {
      assert c !in s[1..];
      RemoveAbsentChar(s[1..], c);
    }
  }

  // ---------------------------------------------------------------------
  // Decimal digits, `str(int)` and `zfill`
  // ---------------------------------------------------------------------

  predicate IsDigit(c: char) { '0' <= c <= '9' }

  predicate AllDigits(s: string) { forall i :: 0 <= i < |s| ==> IsDigit(s[i]) }

  function DigitValue(c: char): nat
    requires IsDigit(c)
  {
    c as int - '0' as int
  }

  function DigitChar(n: nat): (c: char)
    requires n < 10
    ensures IsDigit(c) && DigitValue(c) == n
  {
    ('0' as int + n) as char
  }

  /** The number a string of decimal digits denotes (most significant first). */
  function DigitsValue(s: string): nat
    requires AllDigits(s)
  {
    if s == [] then 0 else DigitsValue(s[..|s| - 1]) * 10 + DigitValue(s[|s| - 1])
  }

  /** One more digit on the right multiplies the value by ten and adds the digit. */
  lemma DigitsValueSnoc(s: string, d: char)
    requires AllDigits(s) && IsDigit(d)
    ensures AllDigits(s + [d]) && DigitsValue(s + [d]) == DigitsValue(s) * 10 + DigitValue(d)
  {
    assert (s + [d])[..|s|] == s;
  }

  function Pow10(n: nat): (r: nat)
    ensures r >= 1
  {
    if n == 0 then 1 else 10 * Pow10(n - 1)
  }

  /** Python's `str(n)` for a non-negative integer. */
  function NatToDecimal(n: nat): (r: string)
    ensures |r| >= 1 && AllDigits(r)
    ensures DigitsValue(r) == n
    ensures r[0] == '0' ==> r == "0"
  {
    if n < 10 then [DigitChar(n)]
    else
      var r := NatToDecimal(n / 10) + [DigitChar(n % 10)];
      assert r[..|r| - 1] == NatToDecimal(n / 10);
      r
  }

  function Zeros(n: nat): (r: string)
    ensures |r| == n && forall i :: 0 <= i < n ==> r[i] == '0'
  {
    if n == 0 then [] else Zeros(n - 1) + ['0']
  }

  /**
   * Python's `s.zfill(width)`: left-pad with '0' to `width` characters,
   * keeping a leading '+' or '-' in front of the padding.
   */
  function ZFill(s: string, width: nat): string {
    if |s| >= width then s
    else if |s| > 0 && (s[0] == '+' || s[0] == '-') then [s[0]] + Zeros(width - |s|) + s[1..]
    else Zeros(width - |s|) + s
  }

  /** Leading zeros do not change the value of a digit string. */
  lemma {:induction false} LeadingZerosValue(n: nat, s: string)
    requires AllDigits(s)
    ensures AllDigits(Zeros(n) + s)
    ensures DigitsValue(Zeros(n) + s) == DigitsValue(s)
    decreases |s|, n
  {
    var z := Zeros(n) + s;
    if s == [] {
      assert z == Zeros(n);
      if n > 0 {
        assert z[..|z| - 1] == Zeros(n - 1) + s;
        LeadingZerosValue(n - 1, s);
        assert DigitValue(z[|z| - 1]) == 0;
      }
    } else {
      assert z[..|z| - 1] == Zeros(n) + s[..|s| - 1];
      LeadingZerosValue(n, s[..|s| - 1]);
    }
  }

  /**
   * `zfill` on an unsigned digit string: the result has `max(width, |s|)`
   * characters, ends with `s`, only adds '0's in front, and denotes the
   * same number; a string already `width` long or longer is unchanged.
   */
  lemma ZFillDigits(s: string, width: nat)
    requires AllDigits(s)
    ensures var r := ZFill(s, width);
      && |r| == (if |s| >= width then |s| else width)
      && (|s| >= width ==> r == s)
      && EndsWith(r, s)
      && (forall i :: 0 <= i < |r| - |s| ==> r[i] == '0')
      && AllDigits(r) && DigitsValue(r) == DigitsValue(s)
  {
    if |s| < width {
      if |s| > 0 { assert IsDigit(s[0]); }
      LeadingZerosValue(width - |s|, s);
      EndsWithAppend(Zeros(width - |s|), s);
    } else {
      assert s[|s| - |s|..] == s;
    }
  }

  /**
   * Fixed-width decimal rendering (`%04d`, `%02d` in `strftime`): the
   * last `width` digits of `n`, zero-padded.
   */
  function PadDigits(n: nat, width: nat): (r: string)
    ensures |r| == width && AllDigits(r)
  {
    if width == 0 then [] else PadDigits(n / 10, width - 1) + [DigitChar(n % 10)]
  }

  /** A number below `10^width` is read back from its padded rendering. */
  lemma {:induction false} PadDigitsValue(n: nat, width: nat)
    requires n < Pow10(width)
    ensures DigitsValue(PadDigits(n, width)) == n
  {
    if width > 0 {
      var r := PadDigits(n, width);
      assert r[..|r| - 1] == PadDigits(n / 10, width - 1);
      assert n / 10 < Pow10(width - 1);
      PadDigitsValue(n / 10, width - 1);
    }
  }

  /** A digit string is reproduced by padding its value to its own length. */
  lemma {:induction false} PadDigitsOfValue(s: string)
    requires AllDigits(s)
    ensures PadDigits(DigitsValue(s), |s|) == s
  {
    if s != [] {
      var p := s[..|s| - 1];
      var v := DigitsValue(s);
      assert v == DigitsValue(p) * 10 + DigitValue(s[|s| - 1]);
      assert v / 10 == DigitsValue(p) && v % 10 == DigitValue(s[|s| - 1]);
      PadDigitsOfValue(p);
      assert s == p + [s[|s| - 1]];
    }
  }

  // ---------------------------------------------------------------------
  // Decimal numbers (`float(text)`, `pd.to_numeric`)
  // ---------------------------------------------------------------------

  /** The value of the mantissa `ip.fp`. */
  function MantissaValue(ip: string, fp: string): real
    requires AllDigits(ip) && AllDigits(fp)
  {
    DigitsValue(ip) as real + DigitsValue(fp) as real / Pow10(|fp|) as real
  }

  /** An unsigned mantissa: `digits`, `digits.`, `digits.digits` or `.digits`. */
  function ParseUnsigned(s: string): Option<real> {
    if '.' in s then
      var k := FirstIndex(s, '.');
      var ip := s[..k];
      var fp := s[k + 1..];
      if AllDigits(ip) && AllDigits(fp) && |ip| + |fp| >= 1 then Some(MantissaValue(ip, fp))
      else None
    else if AllDigits(s) && |s| >= 1 then Some(DigitsValue(s) as real)
    else None
  }

  /** A decimal literal with an optional sign, as `float()` reads it. */
  function ParseDecimal(s: string): Option<real> {
    if |s| > 0 && (s[0] == '+' || s[0] == '-') then
      match ParseUnsigned(s[1..])
      case None => None
      case Some(v) => Some(if s[0] == '-' then -v else v)
    else ParseUnsigned(s)
  }

  /** `float(s)`: surrounding whitespace is ignored. */
  function ParseFloat(s: string): Option<real> {
    ParseDecimal(Strip(s))
  }

  /** A non-empty digit string parses to the integer it denotes. */
  lemma ParseDigits(s: string)
    requires |s| >= 1 && AllDigits(s)
    ensures ParseDecimal(s) == Some(DigitsValue(s) as real)
  {
    assert !IsDigit('.');
    assert '.' !in s;
    assert IsDigit(s[0]);
  }

  /** Text containing a letter (as in "N/A" or "abc") is never a number. */
  lemma NoLetterNumbers(s: string, i: nat)
    requires i < |s| && ('a' <= s[i] <= 'z' || 'A' <= s[i] <= 'Z')
    ensures ParseDecimal(s) == None
  {
    if |s| > 0 && (s[0] == '+' || s[0] == '-') {
      NoLetterInUnsigned(s[1..], i - 1);
    } else {
      NoLetterInUnsigned(s, i);
    }
  }

  lemma NoLetterInUnsigned(s: string, i: int)
    requires 0 <= i < |s| && ('a' <= s[i] <= 'z' || 'A' <= s[i] <= 'Z')
    ensures ParseUnsigned(s) == None
  {
    if '.' in s {
      var k := FirstIndex(s, '.');
      if i < k {
        assert s[..k][i] == s[i];
      } else if i > k {
        assert s[k + 1..][i - k - 1] == s[i];
      }
    }
  }
}
