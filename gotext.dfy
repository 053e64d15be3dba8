/** The parts of Go's `strings` and `unicode` packages that the collector calls:
    `strings.Contains`, `strings.LastIndex`, `strings.ReplaceAll` with an empty
    replacement, `strings.TrimSpace`, `unicode.IsDigit` and `unicode.IsSpace`.

    A Go string is a sequence of UTF-8 bytes; here it is the sequence of its
    runes. For a pattern that is itself valid UTF-8 a byte-level match always
    starts on a rune boundary, so searching and slicing rune by rune gives the
    same results as Go does byte by byte. */
module GoText {

  /** `p` occurs in `s` starting at rune index `i`. */
  predicate OccursAt(s: string, p: string, i: int)
  {
    0 <= i && i + |p| <= |s| && s[i..i + |p|] == p
  }

  /** `strings.Contains(s, p)`. */
  predicate Contains(s: string, p: string)
  {
    exists i | 0 <= i <= |s| - |p| :: OccursAt(s, p, i)
  }

  /** The greatest index `j <= k` at which `p` occurs, or -1. */
  function LastIndexAtOrBelow(s: string, p: string, k: int): (r: int)
    requires -1 <= k <= |s| - |p|
    ensures -1 <= r <= k
    ensures r >= 0 ==> OccursAt(s, p, r)
    ensures forall j :: r < j <= k ==> !OccursAt(s, p, j)
    decreases k + 1
  {
    if k < 0 then -1
    else if OccursAt(s, p, k) then k
    else LastIndexAtOrBelow(s, p, k - 1)
  }

  /** `strings.LastIndex(s, p)`: the start of the last occurrence of `p`,
      or -1 when there is none (for an empty `p` that is `|s|`). */
  function LastIndex(s: string, p: string): (r: int)
    ensures r == -1 || 0 <= r <= |s| - |p|
    ensures r >= 0 ==> OccursAt(s, p, r)
    ensures forall j :: r < j ==> !OccursAt(s, p, j)
    ensures r == -1 <==> !Contains(s, p)
  {
    if |p| > |s| then -1 else LastIndexAtOrBelow(s, p, |s| - |p|)
  }

  /** `strings.ReplaceAll(s, p, "")` for a non-empty `p`: occurrences are
      found from the left and do not overlap. */
  function RemoveAll(s: string, p: string): (r: string)
    requires |p| > 0
    ensures |r| <= |s|
    decreases |s|
  {
    if s == [] then []
    else if OccursAt(s, p, 0) then RemoveAll(s[|p|..], p)
    else [s[0]] + RemoveAll(s[1..], p)
  }

  /** `unicode.IsSpace`: the Latin-1 spaces and the other runes with
      Unicode's White_Space property. */
  predicate IsSpace(c: char)
  {
    || c == '\t' || c == '\n' || c == '\U{000B}' || c == '\U{000C}' || c == '\r' || c == ' '
    || c == '\U{0085}' || c == '\U{00A0}' || c == '\U{1680}'
    || ('\U{2000}' <= c <= '\U{200A}')
    || c == '\U{2028}' || c == '\U{2029}' || c == '\U{202F}' || c == '\U{205F}' || c == '\U{3000}'
  }

  predicate AllSpace(s: string)
  {
    forall i | 0 <= i < |s| :: IsSpace(s[i])
  }

  /** `strings.TrimLeftFunc(s, unicode.IsSpace)`. */
  function TrimLeftSpace(s: string): (r: string)
    ensures |r| <= |s| && r == s[|s| - |r|..]
    ensures r == [] || !IsSpace(r[0])
  {
    if s != [] && IsSpace(s[0]) then TrimLeftSpace(s[1..]) else s
  }

  /** `strings.TrimRightFunc(s, unicode.IsSpace)`. */
  function TrimRightSpace(s: string): (r: string)
    ensures |r| <= |s| && r == s[..|r|]
    ensures r == [] || !IsSpace(r[|r| - 1])
  {
    if s != [] && IsSpace(s[|s| - 1]) then TrimRightSpace(s[..|s| - 1]) else s
  }

  /** What `TrimLeftSpace` drops is white space. */
  lemma {:induction false} TrimLeftDropsSpace(s: string)
    ensures AllSpace(s[..|s| - |TrimLeftSpace(s)|])
    decreases |s|
  {
    if s != [] && IsSpace(s[0]) {
      TrimLeftDropsSpace(s[1..]);
      var k := |s| - |TrimLeftSpace(s)|;
      forall i | 0 <= i < k ensures IsSpace(s[i]) {
        if i > 0 {
          assert s[i] == s[1..][..k - 1][i - 1];
        }
      }
    }
  }

  /** What `TrimRightSpace` drops is white space. */
  lemma {:induction false} TrimRightDropsSpace(s: string)
    ensures AllSpace(s[|TrimRightSpace(s)|..])
    decreases |s|
  {
    if s != [] && IsSpace(s[|s| - 1]) {
      var init := s[..|s| - 1];
      TrimRightDropsSpace(init);
      var k := |TrimRightSpace(s)|;
      forall i | k <= i < |s| ensures IsSpace(s[i]) {
        if i < |s| - 1 {
          assert s[i] == init[k..][i - k];
        }
      }
    }
  }

  /** `strings.TrimSpace`: drops leading and trailing white space. */
  function TrimSpace(s: string): (r: string)
    ensures |r| <= |s|
    ensures r == [] || (!IsSpace(r[0]) && !IsSpace(r[|r| - 1]))
  {
    TrimRightSpace(TrimLeftSpace(s))
  }

  /** `r` is the slice of `s` starting at `a`, with only white space before
      and after it. */
  predicate SpaceAround(s: string, a: int, r: string)
  {
    0 <= a && a + |r| <= |s| && r == s[a..a + |r|] && AllSpace(s[..a]) && AllSpace(s[a + |r|..])
  }

  /** `strings.TrimSpace` keeps a slice of its input and drops only white
      space before and after it. */
  lemma TrimSpaceSlice(s: string)
    ensures SpaceAround(s, |s| - |TrimLeftSpace(s)|, TrimSpace(s))
  {
    var l := TrimLeftSpace(s);
    TrimLeftDropsSpace(s);
    TrimRightDropsSpace(l);
    SliceOfSuffix(s, l, TrimRightSpace(l));
  }

  /** `r`, a prefix of the suffix `l` of `s`, is a slice of `s`, and what
      follows it in `s` is what follows it in `l`; so white space dropped
      before `l` and after `r` surrounds `r` in `s`. */
  lemma SliceOfSuffix(s: string, l: string, r: string)
    requires |l| <= |s| && l == s[|s| - |l|..] && |r| <= |l| && r == l[..|r|]
    requires AllSpace(s[..|s| - |l|]) && AllSpace(l[|r|..])
    ensures SpaceAround(s, |s| - |l|, r)
  {
    var a := |s| - |l|;
    assert s[a + |r|..] == l[|r|..];
  }

  predicate InRange(c: char, lo: int, hi: int)
  {
    lo <= c as int <= hi
  }

  /** The number of ranges in Unicode's decimal-digit table. */
  const DigitRangeCount := 64

  /** The k-th range of code points of Unicode's decimal digits (general
      category Nd), in ascending order, by the Unicode 15.0 table that Go
      1.21 and later carry; an empty range past the end. */
  function DigitRange(k: int): (int, int)
  {
    match k
      case 0 => (0x0030, 0x0039)
      case 1 => (0x0660, 0x0669)
      case 2 => (0x06F0, 0x06F9)
      case 3 => (0x07C0, 0x07C9)
      case 4 => (0x0966, 0x096F)
      case 5 => (0x09E6, 0x09EF)
      case 6 => (0x0A66, 0x0A6F)
      case 7 => (0x0AE6, 0x0AEF)
      case 8 => (0x0B66, 0x0B6F)
      case 9 => (0x0BE6, 0x0BEF)
      case 10 => (0x0C66, 0x0C6F)
      case 11 => (0x0CE6, 0x0CEF)
      case 12 => (0x0D66, 0x0D6F)
      case 13 => (0x0DE6, 0x0DEF)
      case 14 => (0x0E50, 0x0E59)
      case 15 => (0x0ED0, 0x0ED9)
      case 16 => (0x0F20, 0x0F29)
      case 17 => (0x1040, 0x1049)
      case 18 => (0x1090, 0x1099)
      case 19 => (0x17E0, 0x17E9)
      case 20 => (0x1810, 0x1819)
      case 21 => (0x1946, 0x194F)
      case 22 => (0x19D0, 0x19D9)
      case 23 => (0x1A80, 0x1A89)
      case 24 => (0x1A90, 0x1A99)
      case 25 => (0x1B50, 0x1B59)
      case 26 => (0x1BB0, 0x1BB9)
      case 27 => (0x1C40, 0x1C49)
      case 28 => (0x1C50, 0x1C59)
      case 29 => (0xA620, 0xA629)
      case 30 => (0xA8D0, 0xA8D9)
      case 31 => (0xA900, 0xA909)
      case 32 => (0xA9D0, 0xA9D9)
      case 33 => (0xA9F0, 0xA9F9)
      case 34 => (0xAA50, 0xAA59)
      case 35 => (0xABF0, 0xABF9)
      case 36 => (0xFF10, 0xFF19)
      case 37 => (0x104A0, 0x104A9)
      case 38 => (0x10D30, 0x10D39)
      case 39 => (0x11066, 0x1106F)
      case 40 => (0x110F0, 0x110F9)
      case 41 => (0x11136, 0x1113F)
      case 42 => (0x111D0, 0x111D9)
      case 43 => (0x112F0, 0x112F9)
      case 44 => (0x11450, 0x11459)
      case 45 => (0x114D0, 0x114D9)
      case 46 => (0x11650, 0x11659)
      case 47 => (0x116C0, 0x116C9)
      case 48 => (0x11730, 0x11739)
      case 49 => (0x118E0, 0x118E9)
      case 50 => (0x11950, 0x11959)
      case 51 => (0x11C50, 0x11C59)
      case 52 => (0x11D50, 0x11D59)
      case 53 => (0x11DA0, 0x11DA9)
      case 54 => (0x11F50, 0x11F59)
      case 55 => (0x16A60, 0x16A69)
      case 56 => (0x16AC0, 0x16AC9)
      case 57 => (0x16B50, 0x16B59)
      case 58 => (0x1D7CE, 0x1D7FF)
      case 59 => (0x1E140, 0x1E149)
      case 60 => (0x1E2F0, 0x1E2F9)
      case 61 => (0x1E4F0, 0x1E4F9)
      case 62 => (0x1E950, 0x1E959)
      case 63 => (0x1FBF0, 0x1FBF9)
      case _ => (0, -1)
  }

  /** The rune lies in the `k`-th decimal-digit range or a later one. */
  predicate InDigitRangeFrom(c: char, k: nat)
    decreases DigitRangeCount - k
  {
    k < DigitRangeCount && (InRange(c, DigitRange(k).0, DigitRange(k).1) || InDigitRangeFrom(c, k + 1))
  }

  /** `unicode.IsDigit`: the rune lies in one of the decimal-digit ranges. */
  predicate IsDigit(c: char): (r: bool)
    ensures '0' <= c <= '9' ==> r
    ensures '\U{06F0}' <= c <= '\U{06F9}' ==> r
  {
    assert '\U{06F0}' <= c <= '\U{06F9}' ==> InDigitRangeFrom(c, 2);
    assert InDigitRangeFrom(c, 2) ==> InDigitRangeFrom(c, 1);
    InDigitRangeFrom(c, 0)
  }

  /** A rune outside every range from the `k`-th on is in none of them. */
  lemma {:induction false} NotInDigitRangesFrom(c: char, k: nat)
    requires forall j | k <= j < DigitRangeCount :: !InRange(c, DigitRange(j).0, DigitRange(j).1)
    ensures !InDigitRangeFrom(c, k)
    decreases DigitRangeCount - k
  {
    if k < DigitRangeCount {
      NotInDigitRangesFrom(c, k + 1);
    }
  }

  /** Runes below '0' and in the gaps of the table around the Arabic digit
      blocks and the Unicode space runes are not digits. */
  lemma NotDigitInGap(c: char)
    requires || c < '0' || 0x0039 < c as int < 0x0660 || 0x0669 < c as int < 0x06F0
             || 0x1099 < c as int < 0x17E0 || 0x1C59 < c as int < 0xA620
    ensures !IsDigit(c)
  {
    NotInDigitRangesFrom(c, 0);
  }

  /** A white-space rune is never a digit. */
  lemma SpaceIsNotDigit(c: char)
    requires IsSpace(c)
    ensures !IsDigit(c) && c != '.'
  {
    NotDigitInGap(c);
  }
}
