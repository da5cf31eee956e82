/**
 * The printf conversions the scan report uses: `%d`/`%u` (decimal),
 * `%02X` (two upper-case hex digits of a byte) and the field widths
 * `%Ns` / `%-Ns` / `%Nd`. Each rendering comes with the parser that
 * undoes it, and the round trips are proved.
 */
module Printf {
  import opened CTypes

  // ---------------------------------------------------------------------
  // Decimal: %u and %d
  // ---------------------------------------------------------------------

  predicate IsDigit(c: char) { '0' <= c <= '9' }

  predicate AllDigits(s: string) { forall k :: 0 <= k < |s| ==> IsDigit(s[k]) }

  function DigitChar(d: int): (c: char)
    requires 0 <= d < 10
    ensures IsDigit(c) && c as int - '0' as int == d
  {
    ('0' as int + d) as char
  }

  function Pow10(k: nat): (p: nat)
    ensures p >= 1
  {
    if k == 0 then 1 else 10 * Pow10(k - 1)
  }

  /** `%u` of a natural number: its decimal digits, most significant first, without leading zeros. */
  function Digits(n: nat): (r: string)
    ensures |r| >= 1 && AllDigits(r)
    ensures r[0] == '0' ==> n == 0
    decreases n
  {
    if n < 10 then [DigitChar(n)] else Digits(n / 10) + [DigitChar(n % 10)]
  }

  /** `%d` of a signed integer: a minus sign before the digits of a negative value. */
  function Decimal(n: int): (r: string)
    ensures |r| >= 1
    ensures n < 0 <==> r[0] == '-'
    ensures n >= 0 ==> AllDigits(r)
    ensures n < 0 ==> AllDigits(r[1..]) && |r| >= 2
  {
    if n < 0 then "-" + Digits(-n) else Digits(n)
  }

  /** The value of a string of decimal digits (leading zeros allowed). */
  function DigitsValue(s: string): nat
    requires AllDigits(s)
  {
    if s == [] then 0 else 10 * DigitsValue(s[..|s| - 1]) + (s[|s| - 1] as int - '0' as int)
  }

  /** Reads an unsigned decimal: one or more digits and nothing else. */
  function ParseUnsigned(s: string): (r: Option<nat>)
    ensures r.Some? <==> |s| >= 1 && AllDigits(s)
  {
    if |s| >= 1 && AllDigits(s) then Some(DigitsValue(s)) else None
  }

  /** Reads a signed decimal: an optional minus sign, then an unsigned decimal. */
  function ParseSigned(s: string): (r: Option<int>)
    ensures r.Some? && |s| >= 1 && s[0] != '-' ==> r == ParseUnsigned(s)
  {
    if |s| >= 1 && s[0] == '-' then
      match ParseUnsigned(s[1..])
      case Some(v) => Some(-(v as int))
      case None => None
    else
      match ParseUnsigned(s)
      case Some(v) => Some(v as int)
      case None => None
  }

  lemma {:induction false} DigitsValueOfDigits(n: nat)
    ensures DigitsValue(Digits(n)) == n
    decreases n
  {
    var r := Digits(n);
    if n >= 10 {
      DigitsValueOfDigits(n / 10);
      assert r[..|r| - 1] == Digits(n / 10);
    }
  }

  /** Reading back what `%u` printed gives the number printed. */
  lemma UnsignedRoundTrip(n: nat)
    ensures ParseUnsigned(Digits(n)) == Some(n)
  {
    DigitsValueOfDigits(n);
  }

  /** Reading back what `%d` printed gives the number printed. */
  lemma SignedRoundTrip(n: int)
    ensures ParseSigned(Decimal(n)) == Some(n)
  {
    if n < 0 {
      assert Decimal(n)[1..] == Digits(-n);
      UnsignedRoundTrip(-n);
    } else {
      UnsignedRoundTrip(n);
    }
  }

  /**
   * The converse: a digit string without a superfluous leading zero is
   * exactly what `%u` prints for its value, so `%u` hits every canonical
   * numeral and no two numbers print alike.
   */
  lemma {:induction false} CanonicalDigits(s: string)
    requires |s| >= 1 && AllDigits(s) && (s[0] == '0' ==> |s| == 1)
    ensures Digits(DigitsValue(s)) == s
    decreases |s|
  {
    if |s| > 1 {
      var p := s[..|s| - 1];
      assert p[0] == s[0];
      CanonicalDigits(p);
      DigitsValueOfNonZeroLead(p);
      var d := s[|s| - 1] as int - '0' as int;
      assert DigitsValue(s) == 10 * DigitsValue(p) + d;
      assert DigitsValue(s) / 10 == DigitsValue(p) && DigitsValue(s) % 10 == d;
      assert s == p + [s[|s| - 1]];
    }
  }

  /** A signed numeral as `%d` prints one: no "-0", no superfluous leading zero. */
  predicate CanonicalSigned(s: string)
  {
    if |s| >= 1 && s[0] == '-' then |s| >= 2 && AllDigits(s[1..]) && s[1] != '0'
    else |s| >= 1 && AllDigits(s) && (s[0] == '0' ==> |s| == 1)
  }

  /**
   * The converse of SignedRoundTrip on canonical numerals: each is exactly
   * what `%d` prints for the value it reads as. (The reader also accepts
   * "-0" and leading zeros, which `%d` never prints.)
   */
  lemma SignedCanonical(s: string)
    requires CanonicalSigned(s)
    ensures ParseSigned(s).Some? && Decimal(ParseSigned(s).value) == s
  {
    if s[0] == '-' {
      var t := s[1..];
      assert t[0] == s[1];
      DigitsValueOfNonZeroLead(t);
      CanonicalDigits(t);
      assert s == "-" + t;
    } else {
      CanonicalDigits(s);
    }
  }

  lemma {:induction false} DigitsValueOfNonZeroLead(s: string)
    requires |s| >= 1 && AllDigits(s) && s[0] != '0'
    ensures DigitsValue(s) >= 1
    decreases |s|
  {
    if |s| > 1 {
      var p := s[..|s| - 1];
      assert p[0] == s[0];
      DigitsValueOfNonZeroLead(p);
    }
  }

  /** A number below 10^k prints in at most k digits. */
  lemma {:induction false} DigitsFit(n: nat, k: nat)
    requires k >= 1 && n < Pow10(k)
    ensures |Digits(n)| <= k
    decreases k
  {
    if n >= 10 {
      DigitsFit(n / 10, k - 1);
    }
  }

  /** A number of magnitude below 10^k prints in at most k digits, plus one for the sign. */
  lemma DecimalFits(n: int, k: nat)
    requires k >= 1 && -(Pow10(k) as int) < n < Pow10(k)
    ensures |Decimal(n)| <= if n < 0 then k + 1 else k
  {
    if n < 0 {
      DigitsFit(-n, k);
    } else {
      DigitsFit(n, k);
    }
  }

  // ---------------------------------------------------------------------
  // Field widths: %Ns, %Nd (right-justified) and %-Ns (left-justified)
  // ---------------------------------------------------------------------

  /** `k` copies of the character `c`. */
  function Fill(c: char, k: nat): (r: string)
    ensures |r| == k && forall j :: 0 <= j < k ==> r[j] == c
  {
    seq(k, _ => c)
  }

  /** The padding printf puts into a field. */
  function Spaces(k: nat): (r: string)
    ensures |r| == k && forall j :: 0 <= j < k ==> r[j] == ' '
  {
    Fill(' ', k)
  }

  /** `%-Ns`: left-justified in a field of at least `w` characters; never truncates (PadRightShape). */
  function PadRight(s: string, w: nat): (r: string)
    ensures |r| == if |s| < w then w else |s|
  {
    if |s| < w then s + Spaces(w - |s|) else s
  }

  /** `%Ns` and `%Nd`: right-justified in a field of at least `w` characters; never truncates (PadLeftShape). */
  function PadLeft(s: string, w: nat): (r: string)
    ensures |r| == if |s| < w then w else |s|
  {
    if |s| < w then Spaces(w - |s|) + s else s
  }

  /** The text comes first, unchanged, and blanks fill the rest of the field. */
  lemma PadRightShape(s: string, w: nat)
    ensures var r := PadRight(s, w);
      r[..|s|] == s && forall j :: |s| <= j < |r| ==> r[j] == ' '
  {
  }

  /** Blanks fill the front of the field and the text ends it, unchanged. */
  lemma PadLeftShape(s: string, w: nat)
    ensures var r := PadLeft(s, w);
      r[|r| - |s|..] == s && forall j :: 0 <= j < |r| - |s| ==> r[j] == ' '
  {
  }

  /** Drops leading blanks: the reader's inverse of right-justification. */
  function TrimLeft(s: string): (r: string)
    ensures |r| <= |s| && s[|s| - |r|..] == r
    ensures r == [] || r[0] != ' '
    ensures forall j :: 0 <= j < |s| - |r| ==> s[j] == ' '
  {
    if |s| > 0 && s[0] == ' ' then TrimLeft(s[1..]) else s
  }

  /** Drops trailing blanks: the reader's inverse of left-justification. */
  function TrimRight(s: string): (r: string)
    ensures |r| <= |s| && s[..|r|] == r
    ensures r == [] || r[|r| - 1] != ' '
    ensures forall j :: |r| <= j < |s| ==> s[j] == ' '
  {
    if |s| > 0 && s[|s| - 1] == ' ' then TrimRight(s[..|s| - 1]) else s
  }

  lemma {:induction false} TrimLeftOfBlanks(k: nat, s: string)
    requires s == [] || s[0] != ' '
    ensures TrimLeft(Spaces(k) + s) == s
    decreases k
  {
    if k > 0 {
      assert (Spaces(k) + s)[1..] == Spaces(k - 1) + s;
      TrimLeftOfBlanks(k - 1, s);
    }
  }

  lemma {:induction false} TrimRightOfBlanks(s: string, k: nat)
    requires s == [] || s[|s| - 1] != ' '
    ensures TrimRight(s + Spaces(k)) == s
    decreases k
  {
    if k > 0 {
      assert (s + Spaces(k))[..|s| + k - 1] == s + Spaces(k - 1);
      TrimRightOfBlanks(s, k - 1);
    }
  }

  /** Right-justified text reads back unchanged once the padding is dropped. */
  lemma PadLeftTrim(s: string, w: nat)
    requires s == [] || s[0] != ' '
    ensures TrimLeft(PadLeft(s, w)) == s
  {
    if |s| < w {
      TrimLeftOfBlanks(w - |s|, s);
    }
  }

  /** The same, with more text after the right-justified field. */
  lemma PadLeftTrimBefore(s: string, w: nat, t: string)
    requires s != [] && s[0] != ' '
    ensures TrimLeft(PadLeft(s, w) + t) == s + t
  {
    if |s| < w {
      var sp := Spaces(w - |s|);
      assert PadLeft(s, w) == sp + s;
      assert (sp + s) + t == sp + (s + t);
      TrimLeftOfBlanks(w - |s|, s + t);
    }
  }

  /** Left-justified text reads back unchanged once the padding is dropped. */
  lemma PadRightTrim(s: string, w: nat)
    requires s == [] || s[|s| - 1] != ' '
    ensures TrimRight(PadRight(s, w)) == s
  {
    if |s| < w {
      TrimRightOfBlanks(s, w - |s|);
    }
  }

  /** A right-justified `%Nd` field is the numeral once the padding is dropped, and reads back as the number printed. */
  lemma PaddedDecimalReads(n: int, w: nat)
    ensures TrimLeft(PadLeft(Decimal(n), w)) == Decimal(n)
    ensures ParseSigned(TrimLeft(PadLeft(Decimal(n), w))) == Some(n)
  {
    PadLeftTrim(Decimal(n), w);
    SignedRoundTrip(n);
  }

  /** The same for a non-negative number, read as unsigned. */
  lemma PaddedUnsignedReads(n: nat, w: nat)
    ensures TrimLeft(PadLeft(Decimal(n), w)) == Digits(n)
    ensures ParseUnsigned(TrimLeft(PadLeft(Decimal(n), w))) == Some(n)
  {
    PadLeftTrim(Decimal(n), w);
    UnsignedRoundTrip(n);
  }

  // ---------------------------------------------------------------------
  // %02X of a byte
  // ---------------------------------------------------------------------

  const HexDigits: string := "0123456789ABCDEF"

  predicate IsUpperHex(c: char) { '0' <= c <= '9' || 'A' <= c <= 'F' }

  function HexDigit(d: int): (c: char)
    requires 0 <= d < 16
    ensures IsUpperHex(c)
    ensures HexValue(c) == Some(d)
  {
    HexDigits[d]
  }

  /** The value of one upper-case hex digit; lower case and other characters are not read. */
  function HexValue(c: char): (r: Option<int>)
    ensures r.Some? <==> IsUpperHex(c)
    ensures r.Some? ==> 0 <= r.value < 16
  {
    if '0' <= c <= '9' then Some(c as int - '0' as int)
    else if 'A' <= c <= 'F' then Some(c as int - 'A' as int + 10)
    else None
  }

  /** `%02X` of an unsigned byte: always exactly two upper-case hex digits, high nibble first. */
  function Hex2(b: byte): (r: string)
    ensures |r| == 2 && IsUpperHex(r[0]) && IsUpperHex(r[1])
    ensures ParseHex2(r) == Some(b)
  {
    [HexDigit(b / 16), HexDigit(b % 16)]
  }

  /** Reads two upper-case hex digits as a byte. */
  function ParseHex2(s: string): (r: Option<byte>)
    requires |s| == 2
    ensures r.Some? <==> IsUpperHex(s[0]) && IsUpperHex(s[1])
  {
    match (HexValue(s[0]), HexValue(s[1]))
    case (Some(hi), Some(lo)) => Some(16 * hi + lo)
    case _ => None
  }

  /** The converse of the round trip in `Hex2`: every readable pair is what `%02X` prints for its value. */
  lemma ParseHex2Canonical(s: string)
    requires |s| == 2 && ParseHex2(s).Some?
    ensures Hex2(ParseHex2(s).value) == s
  {
    var b := ParseHex2(s).value;
    var hi, lo := HexValue(s[0]).value, HexValue(s[1]).value;
    assert b / 16 == hi && b % 16 == lo;
    HexDigitOfValue(s[0]);
    HexDigitOfValue(s[1]);
  }

  lemma HexDigitOfValue(c: char)
    requires IsUpperHex(c)
    ensures HexDigit(HexValue(c).value) == c
  {
  }
}
