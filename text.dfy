/**
 * Strings as Python compares and formats them: lexicographic order by code
 * point, fixed-width and plain decimal numerals, and the file-name sanitiser.
 */
module Text {

  /** Python's `a < b` on `str`: lexicographic by code point, a proper prefix first. */
  predicate StrLess(a: string, b: string): (lt: bool)
    ensures |a| < |b| && a == b[..|a|] ==> lt
    ensures |b| <= |a| && b == a[..|b|] ==> !lt
  {
    if |a| == 0 then |b| != 0
    else if |b| == 0 then false
    else
      assert |a| < |b| && a == b[..|a|] ==> a[1..] == b[1..][..|a| - 1];
      assert |b| <= |a| && b == a[..|b|] ==> b[1..] == a[1..][..|b| - 1];
      a[0] < b[0] || (a[0] == b[0] && StrLess(a[1..], b[1..]))
  }

  lemma {:induction false} StrLessIrreflexive(a: string)
    ensures !StrLess(a, a)
  {
    if |a| != 0 {
      StrLessIrreflexive(a[1..]);
    }
  }

  lemma {:induction false} StrLessTransitive(a: string, b: string, c: string)
    requires StrLess(a, b) && StrLess(b, c)
    ensures StrLess(a, c)
  {
    if |a| != 0 && a[0] == b[0] && b[0] == c[0] {
      StrLessTransitive(a[1..], b[1..], c[1..]);
    }
  }

  lemma {:induction false} StrLessTotal(a: string, b: string)
    ensures a == b || StrLess(a, b) || StrLess(b, a)
  {
    if |a| != 0 && |b| != 0 && a[0] == b[0] {
      StrLessTotal(a[1..], b[1..]);
      if a[1..] == b[1..] {
        assert a == [a[0]] + a[1..] && b == [b[0]] + b[1..];
      }
    }
  }

  lemma StrLessAsymmetric(a: string, b: string)
    requires StrLess(a, b)
    ensures !StrLess(b, a)
  {
    if StrLess(b, a) {
      StrLessTransitive(a, b, a);
      StrLessIrreflexive(a);
    }
  }

  /** Comparing two strings whose first parts have equal length: the first parts decide unless they are equal. */
  lemma {:induction false} StrLessConcat(p1: string, q1: string, p2: string, q2: string)
    requires |p1| == |p2|
    ensures StrLess(p1 + q1, p2 + q2) <==> StrLess(p1, p2) || (p1 == p2 && StrLess(q1, q2))
  {
    if |p1| != 0 {
      assert (p1 + q1)[0] == p1[0] && (p2 + q2)[0] == p2[0];
      assert (p1 + q1)[1..] == p1[1..] + q1 && (p2 + q2)[1..] == p2[1..] + q2;
      StrLessConcat(p1[1..], q1, p2[1..], q2);
      if p1[0] == p2[0] && p1[1..] == p2[1..] {
        assert p1 == [p1[0]] + p1[1..] && p2 == [p2[0]] + p2[1..];
      }
    } else {
      assert p1 + q1 == q1 && p2 + q2 == q2;
    }
  }

  predicate IsDigit(c: char)
  {
    '0' <= c <= '9'
  }

  predicate AllDigits(s: string)
  {
    forall i :: 0 <= i < |s| ==> IsDigit(s[i])
  }

  /** The numeral character for a digit value 0..9. */
  function Digit(n: int): (c: char)
    requires 0 <= n < 10
    ensures IsDigit(c)
  {
    ('0' as int + n) as char
  }

  function DigitValue(c: char): (n: int)
    requires IsDigit(c)
    ensures 0 <= n < 10 && Digit(n) == c
  {
    c as int - '0' as int
  }

  /** The value of a string of decimal digits, most significant first. */
  function DigitsValue(s: string): nat
    requires AllDigits(s)
  {
    if |s| == 0 then 0 else 10 * DigitsValue(s[..|s| - 1]) + DigitValue(s[|s| - 1])
  }

  function Pow10(k: nat): nat
  {
    if k == 0 then 1 else 10 * Pow10(k - 1)
  }

  /** `n` written with exactly `width` digits, zero-padded on the left (strftime's `%H`, `%m`, `%d`, `%Y`). */
  function PadDigits(n: nat, width: nat): (s: string)
    ensures |s| == width && AllDigits(s)
  {
    if width == 0 then "" else PadDigits(n / 10, width - 1) + [Digit(n % 10)]
  }

  /** `n` in plain decimal without leading zeros (Python's `str(n)` / f-string `{n}`). */
  function Decimal(n: nat): (s: string)
    ensures |s| >= 1 && AllDigits(s)
  {
    if n < 10 then [Digit(n)] else Decimal(n / 10) + [Digit(n % 10)]
  }

  /** Reading a zero-padded numeral back gives the number it was written from. */
  lemma {:induction false} PadDigitsRoundTrip(n: nat, width: nat)
    requires n < Pow10(width)
    ensures DigitsValue(PadDigits(n, width)) == n
  {
    if width != 0 {
      var s := PadDigits(n, width);
      assert s[..|s| - 1] == PadDigits(n / 10, width - 1);
      PadDigitsRoundTrip(n / 10, width - 1);
    }
  }

  lemma {:induction false} DecimalRoundTrip(n: nat)
    ensures DigitsValue(Decimal(n)) == n
  {
    if n >= 10 {
      var s := Decimal(n);
      assert s[..|s| - 1] == Decimal(n / 10);
      DecimalRoundTrip(n / 10);
    }
  }

  /** Zero-padded numerals of one width sort as strings exactly as their values sort. */
  lemma {:induction false} PadDigitsOrder(a: nat, b: nat, width: nat)
    requires a < Pow10(width) && b < Pow10(width)
    ensures StrLess(PadDigits(a, width), PadDigits(b, width)) <==> a < b
  {
    if width == 0 {
      assert a == 0 && b == 0;
    } else {
      var a', b' := a / 10, b / 10;
      assert a' < Pow10(width - 1) && b' < Pow10(width - 1);
      PadDigitsOrder(a', b', width - 1);
      StrLessConcat(PadDigits(a', width - 1), [Digit(a % 10)], PadDigits(b', width - 1), [Digit(b % 10)]);
      PadDigitsRoundTrip(a', width - 1);
      PadDigitsRoundTrip(b', width - 1);
      assert StrLess([Digit(a % 10)], [Digit(b % 10)]) <==> a % 10 < b % 10;
    }
  }

  /** Where the three fields of `a<sep>b<sep>c` sit. */
  lemma JoinThree(a: string, b: string, c: string, sep: char)
    ensures var s := a + ([sep] + (b + ([sep] + c)));
      && |s| == |a| + |b| + |c| + 2
      && s[..|a|] == a && s[|a|] == sep
      && s[|a| + 1..|a| + 1 + |b|] == b && s[|a| + 1 + |b|] == sep
      && s[|a| + |b| + 2..] == c
  {
  }

  /** Python's `raw.replace("/", "")`. */
  function SanitiseId(raw: string): (r: string)
    ensures '/' !in r
    ensures |r| <= |raw|
    ensures forall c :: c != '/' ==> multiset(r)[c] == multiset(raw)[c]
  {
    if |raw| == 0 then ""
    else
      assert raw == [raw[0]] + raw[1..];
      (if raw[0] == '/' then "" else [raw[0]]) + SanitiseId(raw[1..])
  }

  /** Removing separators commutes with concatenation, so the kept characters keep their order. */
  lemma {:induction false} SanitiseIdConcat(a: string, b: string)
    ensures SanitiseId(a + b) == SanitiseId(a) + SanitiseId(b)
  {
    if |a| != 0 {
      assert (a + b)[0] == a[0] && (a + b)[1..] == a[1..] + b;
      SanitiseIdConcat(a[1..], b);
    } else {
      assert a + b == b;
    }
  }

  /** A string with no separator is left as it is; in particular sanitising is idempotent. */
  lemma {:induction false} SanitiseIdKeepsClean(raw: string)
    requires '/' !in raw
    ensures SanitiseId(raw) == raw
  {
    if |raw| != 0 {
      assert raw[0] != '/' && '/' !in raw[1..];
      SanitiseIdKeepsClean(raw[1..]);
      assert raw == [raw[0]] + raw[1..];
    }
  }

  lemma SanitiseIdIdempotent(raw: string)
    ensures SanitiseId(SanitiseId(raw)) == SanitiseId(raw)
  {
    SanitiseIdKeepsClean(SanitiseId(raw));
  }
}
