/** The two number parsers the collector calls, as grammars over runes:
    `strconv.Atoi` and `decimal.NewFromString` of the shopspring/decimal
    package. Decimal values are exact rationals, written as Dafny `real`. */
module GoNumbers {
  import opened Wrappers

  predicate IsAsciiDigit(c: char)
  {
    '0' <= c <= '9'
  }

  predicate AllAsciiDigits(ds: string)
  {
    forall i | 0 <= i < |ds| :: IsAsciiDigit(ds[i])
  }

  /** The value of a string of ASCII digits, read most significant first. */
  function DigitsValue(ds: string): (n: nat)
    requires AllAsciiDigits(ds)
  {
    if ds == [] then 0
    else 10 * DigitsValue(ds[..|ds| - 1]) + (ds[|ds| - 1] as int - '0' as int)
  }

  /** `n` divided by ten to the `k`: the value of the digits `n` with `k`
      of them after the decimal point. */
  function Scale(n: int, k: nat): (r: real)
  {
    if k == 0 then n as real else Scale(n, k - 1) / 10.0
  }

  /** Ten to the `k`. */
  function TenPow(k: nat): (r: nat)
    ensures r >= 1
  {
    if k == 0 then 1 else 10 * TenPow(k - 1)
  }

  /** `Scale` divides: scaling back up by ten to the `k` gives `n` again. */
  lemma {:induction false} ScaleInverse(n: int, k: nat)
    ensures Scale(n, k) * (TenPow(k) as real) == n as real
  {
    if k > 0 {
      ScaleInverse(n, k - 1);
      var s, t := Scale(n, k - 1), TenPow(k - 1) as real;
      calc {
        Scale(n, k) * (TenPow(k) as real);
        (s / 10.0) * (10.0 * t);
        s * t;
      }
    }
  }

  lemma {:induction false} ScaleNonNegative(n: int, k: nat)
    requires n >= 0
    ensures Scale(n, k) >= 0.0
  {
    if k > 0 {
      ScaleNonNegative(n, k - 1);
    }
  }

  /** What `strconv.ParseInt(s, 10, _)` accepts before its range check: an
      optional sign followed by one or more ASCII digits. */
  function ParseSignedDigits(s: string): (r: Option<int>)
  {
    if |s| > 0 && (s[0] == '+' || s[0] == '-') then
      var ds := s[1..];
      if |ds| > 0 && AllAsciiDigits(ds) then
        var v: int := DigitsValue(ds);
        Some(if s[0] == '-' then -v else v)
      else None
    else if |s| > 0 && AllAsciiDigits(s) then Some(DigitsValue(s))
    else None
  }

  const MinInt64: int := -0x8000_0000_0000_0000
  const MaxInt64: int := 0x7FFF_FFFF_FFFF_FFFF

  /** `strconv.Atoi` on a 64-bit platform. */
  function Atoi(s: string): (r: Option<int>)
    ensures r.Some? ==> MinInt64 <= r.value <= MaxInt64
    ensures r.Some? <==> ParseSignedDigits(s).Some? && MinInt64 <= ParseSignedDigits(s).value <= MaxInt64
    ensures r.Some? ==> r == ParseSignedDigits(s)
  {
    match ParseSignedDigits(s)
    case Some(n) => if MinInt64 <= n <= MaxInt64 then Some(n) else None
    case None => None
  }

  /** The index of the first `c` in `s`, or -1. */
  function IndexOfRune(s: string, c: char): (r: int)
    ensures -1 <= r < |s|
    ensures r >= 0 ==> s[r] == c
    ensures forall i | 0 <= i < |s| && (r < 0 || i < r) :: s[i] != c
  {
    if s == [] then -1
    else if s[0] == c then 0
    else var r := IndexOfRune(s[1..], c); if r < 0 then -1 else r + 1
  }

  /** `decimal.NewFromString`: at most one '.'; with the '.' taken out the
      rest must be what `ParseSignedDigits` accepts, and the value is that
      integer divided by ten to the number of runes after the '.'. */
  function ParseDecimal(s: string): (r: Option<real>)
  {
    var dot := IndexOfRune(s, '.');
    if dot < 0 then
      match ParseSignedDigits(s)
      case Some(n) => Some(n as real)
      case None => None
    else
      var frac := s[dot + 1..];
      if '.' in frac then None
      else
        match ParseSignedDigits(s[..dot] + frac)
        case Some(n) => Some(Scale(n, |frac|))
        case None => None
  }

  /** A decimal with one dot reads as the signed digits around the dot,
      taken together, scaled down by the number of digits after it. */
  lemma ParseDecimalOneDot(a: string, b: string)
    requires '.' !in a && '.' !in b
    ensures ParseDecimal(a + "." + b) ==
      if ParseSignedDigits(a + b).Some? then Some(Scale(ParseSignedDigits(a + b).value, |b|)) else None
  {
    var s := a + "." + b;
    var dot := IndexOfRune(s, '.');
    assert s[|a|] == '.';
    assert forall i | 0 <= i < |a| :: s[i] == a[i];
    assert dot == |a|;
    assert s[..dot] == a && s[dot + 1..] == b;
  }

  /** An example with a fraction: "12.5" reads as 12.5. */
  lemma ParseDecimalFraction()
    ensures ParseDecimal("12.5") == Some(12.5)
  {
    assert "12" + "." + "5" == "12.5";
    ParseDecimalOneDot("12", "5");
    assert "12" + "5" == "125";
    assert ParseSignedDigits("125") == Some(125) by {
      assert AllAsciiDigits("125");
      assert DigitsValue("1") == 1 by { assert "1"[..0] == ""; }
      assert DigitsValue("12") == 12 by { assert "12"[..1] == "1"; }
      assert DigitsValue("125") == 125 by { assert "125"[..2] == "12"; }
    }
    assert Scale(125, 1) == 12.5;
  }

  /** A decimal that reads has at most one dot and is not just that dot. */
  lemma ParseDecimalDots(s: string)
    ensures ParseDecimal(s).Some? ==> CountRune(s, '.') <= 1 && CountRune(s, '.') < |s|
  {
    if ParseDecimal(s).Some? {
      var dot := IndexOfRune(s, '.');
      if dot < 0 {
        CountRuneZero(s, '.');
        assert s != [];
      } else {
        assert '.' !in s[..dot];
        DotCount(s, dot);
      }
    }
  }

  /** With the first dot at `dot` and none after it, `s` holds one dot. */
  lemma DotCount(s: string, dot: int)
    requires 0 <= dot < |s| && s[dot] == '.' && '.' !in s[..dot] && '.' !in s[dot + 1..]
    ensures CountRune(s, '.') == 1
  {
    CountRuneSplit(s, dot, '.');
    CountRuneSplit(s[dot..], 1, '.');
    assert s[dot..][1..] == s[dot + 1..];
    assert CountRune(s[dot..][..1], '.') == 1;
    CountRuneZero(s[..dot], '.');
    CountRuneZero(s[dot + 1..], '.');
  }

  /** Text that `ParseSignedDigits` accepts is a sign at the front, if any,
      and ASCII digits. */
  lemma SignedDigitsRunes(t: string)
    requires ParseSignedDigits(t).Some?
    ensures forall i | 0 <= i < |t| :: IsAsciiDigit(t[i]) || (i == 0 && (t[0] == '+' || t[0] == '-'))
  {
    if |t| > 0 && (t[0] == '+' || t[0] == '-') {
      forall i | 1 <= i < |t| ensures IsAsciiDigit(t[i]) { assert t[i] == t[1..][i - 1]; }
    }
  }

  /** `decimal.NewFromString` accepts only ASCII digits, dots and signs; any
      other rune, a digit of another script among them, makes it fail. */
  lemma ParseDecimalRunes(s: string)
    requires ParseDecimal(s).Some?
    ensures forall i | 0 <= i < |s| :: IsAsciiDigit(s[i]) || s[i] == '.' || s[i] == '+' || s[i] == '-'
  {
    var dot := IndexOfRune(s, '.');
    if dot < 0 {
      SignedDigitsRunes(s);
    } else {
      var frac := s[dot + 1..];
      var t := s[..dot] + frac;
      SignedDigitsRunes(t);
      forall i | 0 <= i < |s| && s[i] != '.'
        ensures IsAsciiDigit(s[i]) || s[i] == '+' || s[i] == '-'
      {
        if i < dot {
          assert s[i] == t[i];
        } else {
          assert s[i] == t[i - 1];
        }
      }
    }
  }

  /** Text of ASCII digits and dots only. */
  predicate OnlyAsciiDigitsAndDots(s: string)
  {
    forall i | 0 <= i < |s| :: IsAsciiDigit(s[i]) || s[i] == '.'
  }

  function CountRune(s: string, c: char): (n: nat)
    ensures n <= |s|
  {
    if s == [] then 0 else (if s[0] == c then 1 else 0) + CountRune(s[1..], c)
  }

  lemma CountRuneZero(s: string, c: char)
    ensures CountRune(s, c) == 0 <==> c !in s
  {
  }

  lemma {:induction false} CountRuneSplit(s: string, k: nat, c: char)
    requires k <= |s|
    ensures CountRune(s, c) == CountRune(s[..k], c) + CountRune(s[k..], c)
  {
    if k > 0 {
      CountRuneSplit(s[1..], k - 1, c);
      assert s[1..][..k - 1] == s[..k][1..];
      assert s[1..][k - 1..] == s[k..];
    }
  }

  lemma {:induction false} AllAsciiDigitsSplit(a: string, b: string)
    ensures AllAsciiDigits(a + b) <==> AllAsciiDigits(a) && AllAsciiDigits(b)
  {
    if AllAsciiDigits(a) && AllAsciiDigits(b) {
      forall i | 0 <= i < |a + b| ensures IsAsciiDigit((a + b)[i]) {
        if i < |a| { assert (a + b)[i] == a[i]; } else { assert (a + b)[i] == b[i - |a|]; }
      }
    }
    if AllAsciiDigits(a + b) {
      forall i | 0 <= i < |a| ensures IsAsciiDigit(a[i]) { assert (a + b)[i] == a[i]; }
      forall i | 0 <= i < |b| ensures IsAsciiDigit(b[i]) { assert (a + b)[|a| + i] == b[i]; }
    }
  }

  /** On a string of ASCII digits and dots the decimal grammar reduces to:
      at most one dot and at least one digit; the value is then never
      negative. Normalized text with digits of other scripts is covered by
      `Normalize.ParseNormalized`. */
  lemma ParseDecimalOfDigitsAndDots(s: string)
    requires OnlyAsciiDigitsAndDots(s)
    ensures ParseDecimal(s).Some? <==> CountRune(s, '.') <= 1 && CountRune(s, '.') < |s|
    ensures ParseDecimal(s).Some? ==> ParseDecimal(s).value >= 0.0
  {
    var dot := IndexOfRune(s, '.');
    if dot < 0 {
      DigitsWithoutDot(s);
    } else if '.' !in s[dot + 1..] {
      DigitsWithOneDot(s, dot);
    } else {
      DigitsWithTwoDots(s, dot);
    }
  }

  lemma DigitsWithoutDot(s: string)
    requires OnlyAsciiDigitsAndDots(s) && IndexOfRune(s, '.') < 0
    ensures ParseDecimal(s).Some? <==> CountRune(s, '.') <= 1 && CountRune(s, '.') < |s|
    ensures ParseDecimal(s).Some? ==> ParseDecimal(s).value >= 0.0
  {
    CountRuneZero(s, '.');
    assert AllAsciiDigits(s);
    if s != [] {
      assert ParseSignedDigits(s) == Some(DigitsValue(s));
      assert ParseDecimal(s) == Some(DigitsValue(s) as real);
    }
  }

  lemma DigitsWithOneDot(s: string, dot: int)
    requires OnlyAsciiDigitsAndDots(s) && dot == IndexOfRune(s, '.') && dot >= 0 && '.' !in s[dot + 1..]
    ensures ParseDecimal(s).Some? <==> CountRune(s, '.') <= 1 && CountRune(s, '.') < |s|
    ensures ParseDecimal(s).Some? ==> ParseDecimal(s).value >= 0.0
  {
    var frac := s[dot + 1..];
    var digits := s[..dot] + frac;
    OneDotParts(s, dot);
    if digits != [] {
      assert ParseSignedDigits(digits) == Some(DigitsValue(digits));
      assert ParseDecimal(s) == Some(Scale(DigitsValue(digits), |frac|));
      ScaleNonNegative(DigitsValue(digits), |frac|);
    } else {
      assert ParseDecimal(s).None?;
    }
  }

  /** Around its only dot, text of ASCII digits and dots is digits. */
  lemma OneDotParts(s: string, dot: int)
    requires OnlyAsciiDigitsAndDots(s) && dot == IndexOfRune(s, '.') && dot >= 0 && '.' !in s[dot + 1..]
    ensures AllAsciiDigits(s[..dot] + s[dot + 1..]) && |s[..dot] + s[dot + 1..]| == |s| - 1
    ensures CountRune(s, '.') == 1
  {
    var frac := s[dot + 1..];
    assert '.' !in s[..dot];
    assert AllAsciiDigits(s[..dot]);
    DotCount(s, dot);
    assert AllAsciiDigits(frac);
    AllAsciiDigitsSplit(s[..dot], frac);
  }

  lemma DigitsWithTwoDots(s: string, dot: int)
    requires dot == IndexOfRune(s, '.') && dot >= 0 && '.' in s[dot + 1..]
    ensures ParseDecimal(s).None? && CountRune(s, '.') > 1
  {
    var frac := s[dot + 1..];
    CountRuneSplit(s, dot + 1, '.');
    CountRuneZero(frac, '.');
    assert s[..dot + 1] == s[..dot] + [s[dot]];
    CountRuneSplit(s[..dot + 1], dot, '.');
    CountRuneZero(s[..dot], '.');
    assert s[..dot + 1][dot..] == [s[dot]];
  }

  /** `ShowNat(n)`: the decimal digits of `n`, without leading zeros. */
  function ShowNat(n: nat): (ds: string)
    ensures |ds| > 0 && AllAsciiDigits(ds)
  {
    var last := [('0' as int + n % 10) as char];
    if n < 10 then last else ShowNat(n / 10) + last
  }

  lemma {:induction false} DigitsValueOfShowNat(n: nat)
    ensures DigitsValue(ShowNat(n)) == n
  {
    var ds := ShowNat(n);
    assert ds[..|ds| - 1] == if n < 10 then [] else ShowNat(n / 10);
    if n >= 10 {
      DigitsValueOfShowNat(n / 10);
    }
  }

  /** Reading back the digits of a natural number gives the number, both as
      a decimal and, within the 64-bit range, as an integer. */
  lemma {:induction false} ParseShowNat(n: nat)
    ensures ParseDecimal(ShowNat(n)) == Some(n as real)
    ensures n <= MaxInt64 ==> Atoi(ShowNat(n)) == Some(n)
  {
    var ds := ShowNat(n);
    DigitsValueOfShowNat(n);
    ParseDigitsOnly(ds);
  }

  /** A non-empty string of ASCII digits parses to its value. */
  lemma ParseDigitsOnly(ds: string)
    requires |ds| > 0 && AllAsciiDigits(ds)
    ensures ParseSignedDigits(ds) == Some(DigitsValue(ds) as int)
    ensures ParseDecimal(ds) == Some(DigitsValue(ds) as real)
    ensures DigitsValue(ds) <= MaxInt64 ==> Atoi(ds) == Some(DigitsValue(ds) as int)
  {
    assert IsAsciiDigit(ds[0]);
    assert '.' !in ds by {
      forall i | 0 <= i < |ds| ensures ds[i] != '.' { assert IsAsciiDigit(ds[i]); }
    }
    assert IndexOfRune(ds, '.') < 0;
  }
}
