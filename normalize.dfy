/** The text helpers of post-collector/main.go: turning Persian digits into
    ASCII ones, reading a price written in tomans, and cutting the region
    out of a listing's description. */
module Normalize {
  import opened Wrappers
  import opened GoText
  import opened GoNumbers

  /** '۰' and '۹', EXTENDED ARABIC-INDIC DIGIT ZERO and NINE. */
  const PersianZero: char := '\U{06F0}'
  const PersianNine: char := '\U{06F9}'
  /** '٬', ARABIC THOUSANDS SEPARATOR. */
  const ThousandsSeparator: string := "\U{066C}"
  /** "تومان", the currency unit written after a price. */
  const Toman: string := "\U{062A}\U{0648}\U{0645}\U{0627}\U{0646}"

  predicate IsPersianDigit(c: char)
  {
    PersianZero <= c <= PersianNine
  }

  /** What one rune contributes to the normalized text: a Persian digit
      becomes the ASCII digit of the same value, any other digit and '.' stay,
      every other rune is dropped. */
  function NormalizeRune(c: char): (r: string)
  {
    if IsPersianDigit(c) then [(c as int - PersianZero as int + '0' as int) as char]
    else if IsDigit(c) || c == '.' then [c]
    else []
  }

  /** The specification of `convertPersianToEnglishDigits`, rune by rune from
      the left as the builder appends. */
  function NormalizeDigits(s: string): (r: string)
  {
    if s == [] then [] else NormalizeDigits(s[..|s| - 1]) + NormalizeRune(s[|s| - 1])
  }

  /** `convertPersianToEnglishDigits` (main.go:161-171): one pass over the
      runes, appending to a builder. */
  method ConvertPersianToEnglishDigits(input: string) returns (result: string)
    ensures result == NormalizeDigits(input)
  {
    result := [];
    var i := 0;
    while i < |input|
      invariant 0 <= i <= |input|
      invariant result == NormalizeDigits(input[..i])
    {
      var r := input[i];
      if PersianZero <= r <= PersianNine {
        result := result + [(r as int - PersianZero as int + '0' as int) as char];
      } else if IsDigit(r) || r == '.' {
        result := result + [r];
      }
      assert input[..i + 1][..i] == input[..i];
      i := i + 1;
    }
    assert input[..i] == input;
  }

  /** A rune that survives normalization: a digit that is not Persian, or '.'. */
  predicate IsNormalRune(c: char)
  {
    (IsDigit(c) && !IsPersianDigit(c)) || c == '.'
  }

  predicate IsNormal(s: string)
  {
    forall i | 0 <= i < |s| :: IsNormalRune(s[i])
  }

  lemma {:induction false} NormalizeConcat(a: string, b: string)
    ensures NormalizeDigits(a + b) == NormalizeDigits(a) + NormalizeDigits(b)
    decreases |b|
  {
    if b == [] {
      assert a + b == a;
    } else {
      var b' := b[..|b| - 1];
      assert (a + b)[..|a + b| - 1] == a + b';
      NormalizeConcat(a, b');
    }
  }

  /** The output holds only non-Persian digits and dots and is never longer
      than the input. */
  lemma {:induction false} NormalizeDigitsOutput(s: string)
    ensures IsNormal(NormalizeDigits(s))
    ensures |NormalizeDigits(s)| <= |s|
  {
    if s != [] {
      NormalizeDigitsOutput(s[..|s| - 1]);
    }
  }

  /** Text that is already normal is left as it is. */
  lemma {:induction false} NormalizeNormal(s: string)
    requires IsNormal(s)
    ensures NormalizeDigits(s) == s
  {
    if s != [] {
      var init, last := s[..|s| - 1], s[|s| - 1];
      NormalSplit(s);
      NormalizeNormal(init);
      NormalRuneKept(last);
      NormalizeKeepsLast(init, last);
      SplitLast(s);
    }
  }

  lemma NormalizeKeepsLast(init: string, last: char)
    requires NormalizeDigits(init) == init && NormalizeRune(last) == [last]
    ensures NormalizeDigits(init + [last]) == init + [last]
  {
    var s := init + [last];
    assert s[..|s| - 1] == init;
  }

  lemma SplitLast(s: string)
    requires s != []
    ensures s == s[..|s| - 1] + [s[|s| - 1]]
  {
  }

  lemma NormalSplit(s: string)
    requires IsNormal(s) && s != []
    ensures IsNormal(s[..|s| - 1]) && IsNormalRune(s[|s| - 1])
  {
    var init := s[..|s| - 1];
    forall i | 0 <= i < |init| ensures IsNormalRune(init[i]) { assert init[i] == s[i]; }
  }

  lemma NormalRuneKept(c: char)
    requires IsNormalRune(c)
    ensures NormalizeRune(c) == [c]
  {
  }

  /** Normalizing twice is normalizing once. */
  lemma NormalizeIdempotent(s: string)
    ensures NormalizeDigits(NormalizeDigits(s)) == NormalizeDigits(s)
  {
    NormalizeDigitsOutput(s);
    NormalizeNormal(NormalizeDigits(s));
  }

  /** A numeral written in Persian digits becomes the ASCII numeral with the
      same digit values in the same positions. */
  lemma {:induction false} NormalizePersianNumeral(s: string)
    requires forall i | 0 <= i < |s| :: IsPersianDigit(s[i])
    ensures |NormalizeDigits(s)| == |s|
    ensures forall i | 0 <= i < |s| ::
      IsAsciiDigit(NormalizeDigits(s)[i]) && NormalizeDigits(s)[i] as int - '0' as int == s[i] as int - PersianZero as int
  {
    if s != [] {
      NormalizePersianNumeral(s[..|s| - 1]);
    }
  }

  /** Text without digits or dots normalizes to nothing. */
  lemma {:induction false} NormalizeDropsText(s: string)
    requires forall i | 0 <= i < |s| :: !IsDigit(s[i]) && s[i] != '.'
    ensures NormalizeDigits(s) == []
  {
    if s != [] {
      NormalizeDropsText(s[..|s| - 1]);
    }
  }

  /** Removing text that normalizes to nothing does not change the
      normalized result. */
  lemma {:induction false} NormalizeRemoveAll(s: string, p: string)
    requires |p| > 0 && NormalizeDigits(p) == []
    ensures NormalizeDigits(RemoveAll(s, p)) == NormalizeDigits(s)
    decreases |s|
  {
    if s == [] {
    } else if OccursAt(s, p, 0) {
      NormalizeRemoveAll(s[|p|..], p);
      assert s == p + s[|p|..];
      NormalizeDropPrefix(p, s[|p|..]);
    } else {
      NormalizeRemoveAll(s[1..], p);
      NormalizeKeepFirst(s, RemoveAll(s[1..], p));
    }
  }

  lemma NormalizeDropPrefix(p: string, t: string)
    requires NormalizeDigits(p) == []
    ensures NormalizeDigits(p + t) == NormalizeDigits(t)
  {
    NormalizeConcat(p, t);
  }

  lemma NormalizeKeepFirst(s: string, t: string)
    requires s != [] && NormalizeDigits(t) == NormalizeDigits(s[1..])
    ensures NormalizeDigits([s[0]] + t) == NormalizeDigits(s)
  {
    assert s == [s[0]] + s[1..];
    NormalizeConcat([s[0]], s[1..]);
    NormalizeConcat([s[0]], t);
  }

  /** A white-space rune normalizes to nothing. */
  lemma NormalizeSpace(c: char)
    requires IsSpace(c)
    ensures NormalizeRune(c) == []
  {
    SpaceIsNotDigit(c);
  }

  /** Dropping leading white space does not change the normalized result. */
  lemma {:induction false} NormalizeTrimLeft(s: string)
    ensures NormalizeDigits(TrimLeftSpace(s)) == NormalizeDigits(s)
    decreases |s|
  {
    if s != [] && IsSpace(s[0]) {
      NormalizeTrimLeft(s[1..]);
      NormalizeLeadingSpace(s);
    }
  }

  lemma NormalizeLeadingSpace(s: string)
    requires s != [] && IsSpace(s[0])
    ensures NormalizeDigits(s) == NormalizeDigits(s[1..])
  {
    NormalizeSpace(s[0]);
    assert s == [s[0]] + s[1..];
    NormalizeConcat([s[0]], s[1..]);
    assert NormalizeDigits([s[0]]) == NormalizeDigits([]) + NormalizeRune(s[0]);
  }

  /** Dropping trailing white space does not change the normalized result. */
  lemma {:induction false} NormalizeTrimRight(s: string)
    ensures NormalizeDigits(TrimRightSpace(s)) == NormalizeDigits(s)
    decreases |s|
  {
    if s != [] && IsSpace(s[|s| - 1]) {
      NormalizeTrimRight(s[..|s| - 1]);
      NormalizeSpace(s[|s| - 1]);
    }
  }

  /** Trimming white space does not change the normalized result. */
  lemma NormalizeTrimSpace(s: string)
    ensures NormalizeDigits(TrimSpace(s)) == NormalizeDigits(s)
  {
    NormalizeTrimLeft(s);
    NormalizeTrimRight(TrimLeftSpace(s));
  }

  /** Arabic-script letters and marks outside the two digit blocks
      (the thousands separator among them), and the ASCII space. */
  predicate IsWordRune(c: char)
  {
    c == ' ' || (0x0620 <= c as int <= 0x065F) || (0x066A <= c as int <= 0x06EF)
  }

  lemma {:induction false} NormalizeWords(s: string)
    requires forall i | 0 <= i < |s| :: IsWordRune(s[i])
    ensures NormalizeDigits(s) == []
  {
    forall i | 0 <= i < |s| ensures !IsDigit(s[i]) && s[i] != '.' {
      assert IsWordRune(s[i]);
      NotDigitInGap(s[i]);
    }
    NormalizeDropsText(s);
  }

  /** The separator, the unit word and a space before it hold no digits. */
  lemma {:induction false} UnitTextNormalizesToNothing()
    ensures NormalizeDigits(ThousandsSeparator) == []
    ensures NormalizeDigits(Toman) == []
    ensures NormalizeDigits(" " + Toman) == []
  {
    NormalizeWords(ThousandsSeparator);
    NormalizeWords(Toman);
    NormalizeWords(" " + Toman);
  }

  /** `parsePersianNumberToDecimal` (main.go:173-188): remove every
      thousands separator and every "تومان", trim, normalize the digits and
      read an exact decimal. The error carries the text that did not parse. */
  function ParsePersianNumberToDecimal(input: string): (r: Result<real, string>)
    ensures r.Ok? <==> ParseDecimal(NormalizeDigits(input)).Some?
    ensures r.Ok? ==> r.value == ParseDecimal(NormalizeDigits(input)).value
    ensures r.Err? ==> r.error == NormalizeDigits(input)
  {
    var cleaned := RemoveAll(input, ThousandsSeparator);
    var cleaned' := RemoveAll(cleaned, Toman);
    var trimmed := TrimSpace(cleaned');
    var englishDigits := NormalizeDigits(trimmed);
    UnitTextNormalizesToNothing();
    NormalizeRemoveAll(input, ThousandsSeparator);
    NormalizeRemoveAll(cleaned, Toman);
    NormalizeTrimSpace(cleaned');
    match ParseDecimal(englishDigits)
    case Some(v) => Ok(v)
    case None => Err(englishDigits)
  }

  /** Normalized text reads as a decimal exactly when all its digits are
      ASCII, it has at most one dot and it has a digit; the value is never
      negative. A digit of another script, which normalization keeps, makes
      the read fail. */
  lemma ParseNormalized(s: string)
    requires IsNormal(s)
    ensures ParseDecimal(s).Some? <==>
      OnlyAsciiDigitsAndDots(s) && CountRune(s, '.') <= 1 && CountRune(s, '.') < |s|
    ensures ParseDecimal(s).Some? ==> ParseDecimal(s).value >= 0.0
  {
    if ParseDecimal(s).Some? {
      ParseDecimalRunes(s);
      NormalHasNoSign(s);
      ParseDecimalOfDigitsAndDots(s);
    } else if OnlyAsciiDigitsAndDots(s) {
      ParseDecimalOfDigitsAndDots(s);
    }
  }

  /** Normal text holds no sign, so where it holds only ASCII digits, dots
      and signs it holds only ASCII digits and dots. */
  lemma NormalHasNoSign(s: string)
    requires IsNormal(s)
    requires forall i | 0 <= i < |s| :: IsAsciiDigit(s[i]) || s[i] == '.' || s[i] == '+' || s[i] == '-'
    ensures OnlyAsciiDigitsAndDots(s)
  {
    forall i | 0 <= i < |s| ensures IsAsciiDigit(s[i]) || s[i] == '.' {
      NormalRuneIsNoSign(s[i]);
    }
  }

  lemma NormalRuneIsNoSign(c: char)
    requires IsNormalRune(c)
    ensures c != '+' && c != '-'
  {
    if c == '+' || c == '-' {
      NotDigitInGap(c);
    }
  }

  /** A price reads exactly when its normalized digits are ASCII digits and
      at most one dot, with at least one digit; prices are never negative. */
  lemma PriceReadsWhen(input: string)
    ensures var n := NormalizeDigits(input);
      ParsePersianNumberToDecimal(input).Ok? <==>
        OnlyAsciiDigitsAndDots(n) && CountRune(n, '.') <= 1 && CountRune(n, '.') < |n|
    ensures ParsePersianNumberToDecimal(input).Ok? ==> ParsePersianNumberToDecimal(input).value >= 0.0
  {
    NormalizeDigitsOutput(input);
    ParseNormalized(NormalizeDigits(input));
  }

  lemma SameNormalFormSameParse(u: string, v: string)
    requires NormalizeDigits(u) == NormalizeDigits(v)
    ensures ParsePersianNumberToDecimal(u) == ParsePersianNumberToDecimal(v)
  {
  }

  lemma ParsesAs(input: string, v: real)
    requires ParseDecimal(NormalizeDigits(input)) == Some(v)
    ensures ParsePersianNumberToDecimal(input) == Ok(v)
  {
  }

  /** The ASCII digits of a numeral rewritten in Persian digits. */
  function ToPersianDigits(ds: string): (r: string)
    requires AllAsciiDigits(ds)
    ensures |r| == |ds| && forall i | 0 <= i < |r| :: IsPersianDigit(r[i])
  {
    if ds == [] then []
    else ToPersianDigits(ds[..|ds| - 1]) + [(ds[|ds| - 1] as int - '0' as int + PersianZero as int) as char]
  }

  lemma {:induction false} NormalizeToPersianDigits(ds: string)
    requires AllAsciiDigits(ds)
    ensures NormalizeDigits(ToPersianDigits(ds)) == ds
  {
    if ds != [] {
      var init := ds[..|ds| - 1];
      NormalizeToPersianDigits(init);
      var p := ToPersianDigits(ds);
      assert p[..|p| - 1] == ToPersianDigits(init);
      assert ds == init + [ds[|ds| - 1]];
    }
  }

  /** A whole number of tomans written the way listings show it, in Persian
      digits followed by " تومان", parses back to that number. */
  lemma {:induction false} PriceRoundTrip(n: nat)
    ensures ParsePersianNumberToDecimal(ToPersianDigits(ShowNat(n)) + " " + Toman) == Ok(n as real)
  {
    var ds := ShowNat(n);
    NormalizePriceText(ds);
    ParseShowNat(n);
    ParsesAs(ToPersianDigits(ds) + " " + Toman, n as real);
  }

  /** ASCII digits written in Persian digits and followed by `" تومان"`
      normalize back to the ASCII digits. */
  lemma NormalizePriceText(ds: string)
    requires AllAsciiDigits(ds)
    ensures NormalizeDigits(ToPersianDigits(ds) + " " + Toman) == ds
  {
    var suffix := " " + Toman;
    UnitTextNormalizesToNothing();
    NormalizeConcat(ToPersianDigits(ds), suffix);
    assert ToPersianDigits(ds) + " " + Toman == ToPersianDigits(ds) + suffix;
    NormalizeToPersianDigits(ds);
    assert ds + [] == ds;
  }

  /** Text that normalizes to nothing can be dropped from anywhere. */
  lemma {:induction false} NormalizeDropMiddle(x: string, m: string, y: string)
    requires NormalizeDigits(m) == []
    ensures NormalizeDigits(x + m + y) == NormalizeDigits(x + y)
  {
    NormalizeConcat(x, m);
    NormalizeConcat(x + m, y);
    NormalizeConcat(x, y);
    assert NormalizeDigits(x + m) == NormalizeDigits(x);
  }

  /** Thousands separators make no difference to the price read. */
  lemma {:induction false} SeparatorIgnored(x: string, y: string)
    ensures ParsePersianNumberToDecimal(x + ThousandsSeparator + y) == ParsePersianNumberToDecimal(x + y)
  {
    UnitTextNormalizesToNothing();
    NormalizeDropMiddle(x, ThousandsSeparator, y);
    SameNormalFormSameParse(x + ThousandsSeparator + y, x + y);
  }

  lemma {:induction false} OccursInSuffix(s: string, p: string, off: nat, j: int)
    requires off <= |s| && OccursAt(s[off..], p, j)
    ensures OccursAt(s, p, off + j)
  {
    assert s[off..][j..j + |p|] == s[off + j..off + j + |p|];
  }

  lemma NothingAfterLastOccurrence(s: string, p: string)
    requires |p| > 0 && LastIndex(s, p) >= 0
    ensures !Contains(s[LastIndex(s, p) + |p|..], p)
  {
    var idx := LastIndex(s, p);
    var r := s[idx + |p|..];
    if Contains(r, p) {
      var j :| 0 <= j <= |r| - |p| && OccursAt(r, p, j);
      OccursInSuffix(s, p, idx + |p|, j);
      assert false;
    }
  }

  /** `trimAfterLastPattern` (main.go:396-403): the text after the last
      occurrence of `pattern`, or all of `s` when it does not occur. */
  function TrimAfterLastPattern(s: string, pattern: string): (r: string)
    ensures |r| <= |s| && r == s[|s| - |r|..]
    ensures !Contains(s, pattern) ==> r == s
    ensures Contains(s, pattern) ==>
      |s| - |r| >= |pattern| && s[|s| - |r| - |pattern|..|s| - |r|] == pattern
    ensures Contains(s, pattern) && |pattern| > 0 ==> !Contains(r, pattern)
    ensures Contains(s, pattern) ==> forall j | |s| - |r| - |pattern| < j :: !OccursAt(s, pattern, j)
  {
    var idx := LastIndex(s, pattern);
    if idx == -1 then s
    else
      if |pattern| > 0 then
        NothingAfterLastOccurrence(s, pattern);
        s[idx + |pattern|..]
      else s[idx + |pattern|..]
  }
}
