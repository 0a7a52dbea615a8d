/** Numeric text. Every quantity on the quotation screens (weights, rates,
    costs, revision numbers) is held as text and converted at the point of use
    with JavaScript's `parseFloat(x || '0')` or `parseInt(x || "0", 10)`. This
    module models those two conversions on plain decimal notation, and the
    `toString` that turns a revision number back into text.

    Both conversions are one left-to-right scanner: skip leading white space,
    take an optional sign, then the longest run of digits (with, for
    `parseFloat`, an optional point and fraction digits); whatever follows is
    ignored, and text with no digit in the number position reads as NaN. */
module Numeric {
  import opened Common

  predicate IsDigit(c: char) { '0' <= c <= '9' }

  /** The white space JavaScript's number parsing skips: tab, vertical tab,
      form feed, space, no-break space, the byte order mark, the other Unicode
      space separators, and the four line terminators. */
  predicate IsSpace(c: char)
  {
    c == '\t' || c == '\n' || c == '\U{000B}' || c == '\U{000C}' || c == '\r' || c == ' '
    || c == '\U{00A0}' || c == '\U{1680}' || '\U{2000}' <= c <= '\U{200A}' || c == '\U{2028}' || c == '\U{2029}'
    || c == '\U{202F}' || c == '\U{205F}' || c == '\U{3000}' || c == '\U{FEFF}'
  }

  predicate AllDigits(s: string) { forall i :: 0 <= i < |s| ==> IsDigit(s[i]) }

  /** Value of a decimal digit (0 for any other character). */
  function DigitValue(c: char): nat
  {
    if IsDigit(c) then c as int - '0' as int else 0
  }

  function DigitChar(d: nat): (c: char)
    requires d < 10
    ensures IsDigit(c) && DigitValue(c) == d
  {
    ('0' as int + d) as char
  }

  /** The number written `acc` followed by the digits `ds`. */
  function DigitsFrom(acc: nat, ds: string): nat
    decreases |ds|
  {
    if |ds| == 0 then acc else DigitsFrom(10 * acc + DigitValue(ds[0]), ds[1..])
  }

  /** What the scanner has read so far. */
  datatype ScanState =
    | Lead                                      // white space skipped so far
    | AfterSign(negative: bool)                 // sign (or none) taken
    | Whole(negative: bool, acc: nat)           // at least one integer digit
    | Fraction(negative: bool, acc: nat, frac: real, unit: real, digits: bool)
        // after the point: fraction so far, value of the next place, any digit seen

  /** A successful reading: sign, integer part and fraction part. */
  datatype Reading = Reading(negative: bool, whole: nat, fraction: real)

  function StateRank(st: ScanState): nat
  {
    if st.Lead? then 1 else 0
  }

  /** The scanner. `decimals` says whether a decimal point and fraction digits
      are accepted (`parseFloat`) or end the number (`parseInt`). None is NaN. */
  function Scan(s: string, st: ScanState, decimals: bool): Option<Reading>
    decreases |s|, StateRank(st)
  {
    match st
    case Lead =>
      if |s| > 0 && IsSpace(s[0]) then Scan(s[1..], Lead, decimals)
      else if |s| > 0 && s[0] == '-' then Scan(s[1..], AfterSign(true), decimals)
      else if |s| > 0 && s[0] == '+' then Scan(s[1..], AfterSign(false), decimals)
      else Scan(s, AfterSign(false), decimals)
    case AfterSign(neg) =>
      if |s| > 0 && IsDigit(s[0]) then Scan(s[1..], Whole(neg, DigitValue(s[0])), decimals)
      else if decimals && |s| > 0 && s[0] == '.' then Scan(s[1..], Fraction(neg, 0, 0.0, 0.1, false), decimals)
      else None
    case Whole(neg, acc) =>
      if |s| > 0 && IsDigit(s[0]) then Scan(s[1..], Whole(neg, 10 * acc + DigitValue(s[0])), decimals)
      else if decimals && |s| > 0 && s[0] == '.' then Scan(s[1..], Fraction(neg, acc, 0.0, 0.1, true), decimals)
      else Some(Reading(neg, acc, 0.0))
    case Fraction(neg, acc, frac, unit, digits) =>
      if |s| > 0 && IsDigit(s[0]) then
        Scan(s[1..], Fraction(neg, acc, frac + DigitValue(s[0]) as real * unit, unit / 10.0, true), decimals)
      else if digits then Some(Reading(neg, acc, frac))
      else None
  }

  /** `parseInt(s, 10)`: the longest signed digit prefix; None stands for NaN. */
  function ParseInt(s: string): Option<int>
  {
    match Scan(s, Lead, false)
    case None => None
    case Some(r) => Some(if r.negative then -(r.whole as int) else r.whole as int)
  }

  /** `parseFloat(s)` on plain decimal notation; None stands for NaN. */
  function ParseFloat(s: string): Option<real>
  {
    match Scan(s, Lead, true)
    case None => None
    case Some(r) =>
      var v := r.whole as real + r.fraction;
      Some(if r.negative then -v else v)
  }

  /** `parseFloat(s || '0')`, the conversion every cost field goes through.
      NaN (text with no leading number) is read as 0. */
  function Num(s: string): (r: real)
    ensures s == "" ==> r == 0.0
  {
    if s == "" then
      assert Scan("", Whole(false, 0), true) == Some(Reading(false, 0, 0.0));
      assert "0"[1..] == "";
      assert Scan("0", Lead, true) == Some(Reading(false, 0, 0.0));
      ParseFloat("0").value
    else ParseFloat(s).GetOr(0.0)
  }

  /** `parseInt(s || "0", 10)`, the conversion every revision number goes
      through. NaN is read as -1: the resolvers only ever ask whether a
      revision is `> h` for some h >= 0 or `=== 0`, and both are false for NaN
      and for -1 alike. */
  function Rev(s: string): (r: int)
    ensures s == "" ==> r == 0
  {
    if s == "" then
      assert Scan("", Whole(false, 0), false) == Some(Reading(false, 0, 0.0));
      assert "0"[1..] == "";
      assert Scan("0", Lead, false) == Some(Reading(false, 0, 0.0));
      ParseInt("0").value
    else
      match ParseInt(s)
      case Some(n) => n
      case None => -1
  }

  /** Away from the empty text, the conversions are the parses themselves,
      with NaN read as 0 for a cost and as -1 for a revision; the empty text
      never parses. */
  lemma NumAndRevReadParses(s: string)
    ensures ParseFloat("").None? && ParseInt("").None?
    ensures ParseFloat(s).Some? ==> Num(s) == ParseFloat(s).value
    ensures ParseFloat(s).None? ==> Num(s) == 0.0
    ensures ParseInt(s).Some? ==> Rev(s) == ParseInt(s).value
    ensures ParseInt(s).None? && s != "" ==> Rev(s) == -1
  {
    assert Scan("", Lead, true) == None && Scan("", Lead, false) == None;
  }

  /** `n.toString()` for a natural number. */
  function FormatNat(n: nat): (s: string)
    ensures |s| > 0
    decreases n
  {
    if n < 10 then [DigitChar(n)] else FormatNat(n / 10) + [DigitChar(n % 10)]
  }

  /** `n.toString()` for an integer; `parseInt` reads it back as n. */
  function FormatInt(n: int): (s: string)
    ensures s != ""
    ensures ParseInt(s) == Some(n)
  {
    var m: nat := if n < 0 then -n else n;
    var digits := FormatNat(m);
    FormatNatDigits(m);
    assert IsDigit(digits[0]);
    ScanFormat(m, n < 0, false);
    if n < 0 then
      assert ("-" + digits)[1..] == digits;
      "-" + digits
    else digits
  }

  // ---------------------------------------------------------------------------
  // Round trips
  // ---------------------------------------------------------------------------

  lemma {:induction false} FormatNatDigits(n: nat)
    ensures AllDigits(FormatNat(n))
    decreases n
  {
    if n >= 10 {
      FormatNatDigits(n / 10);
    }
  }

  /** Appending a digit multiplies by ten and adds the digit. */
  lemma {:induction false} DigitsFromSnoc(acc: nat, ds: string, c: char)
    ensures DigitsFrom(acc, ds + [c]) == 10 * DigitsFrom(acc, ds) + DigitValue(c)
    decreases |ds|
  {
    if |ds| == 0 {
      assert ds + [c] == [c];
      assert [c][1..] == [];
    } else {
      assert (ds + [c])[1..] == ds[1..] + [c];
      DigitsFromSnoc(10 * acc + DigitValue(ds[0]), ds[1..], c);
    }
  }

  /** The digits of `n.toString()` spell n. */
  lemma {:induction false} DigitsFromFormat(n: nat)
    ensures DigitsFrom(0, FormatNat(n)) == n
    decreases n
  {
    if n < 10 {
      assert FormatNat(n)[1..] == [];
    } else {
      DigitsFromFormat(n / 10);
      DigitsFromSnoc(0, FormatNat(n / 10), DigitChar(n % 10));
    }
  }

  /** Once inside the integer digits, the scanner reads the whole digit run. */
  lemma {:induction false} ScanWholeDigits(ds: string, negative: bool, acc: nat, decimals: bool)
    requires AllDigits(ds)
    ensures Scan(ds, Whole(negative, acc), decimals) == Some(Reading(negative, DigitsFrom(acc, ds), 0.0))
    decreases |ds|
  {
    if |ds| > 0 {
      ScanWholeDigits(ds[1..], negative, 10 * acc + DigitValue(ds[0]), decimals);
    }
  }

  /** A formatted natural number is read back exactly, with or without decimals. */
  lemma ScanFormat(n: nat, negative: bool, decimals: bool)
    ensures Scan(FormatNat(n), AfterSign(negative), decimals) == Some(Reading(negative, n, 0.0))
  {
    var s := FormatNat(n);
    FormatNatDigits(n);
    assert IsDigit(s[0]);
    ScanWholeDigits(s[1..], negative, DigitValue(s[0]), decimals);
    DigitsFromFormat(n);
  }

  /** `parseInt(n.toString() || "0", 10) == n`: a revision number survives the
      round trip through the text field of a screen's record. */
  lemma RevOfFormat(n: int)
    ensures Rev(FormatInt(n)) == n
  {
  }

  /** `parseFloat` reads a formatted natural number back as the same number. */
  lemma NumOfFormat(n: nat)
    ensures Num(FormatNat(n)) == n as real
  {
    var s := FormatNat(n);
    FormatNatDigits(n);
    assert IsDigit(s[0]);
    ScanFormat(n, false, true);
  }

  /** An empty field counts as zero, for costs and for revision numbers. */
  lemma EmptyIsZero()
    ensures Num("") == 0.0
    ensures Rev("") == 0
  {
    NumOfFormat(0);
    RevOfFormat(0);
    assert FormatNat(0) == "0";
  }

  /** A decimal fraction is read with its fraction digits. */
  lemma NumOfDecimal()
    ensures Num("12.5") == 12.5
  {
    var s := "12.5";
    assert s[1..] == "2.5" && s[1..][1..] == ".5" && ".5"[1..] == "5" && "5"[1..] == "";
    assert Scan("", Fraction(false, 12, 0.5, 0.01, true), true) == Some(Reading(false, 12, 0.5));
    assert Scan("5", Fraction(false, 12, 0.0, 0.1, true), true) == Some(Reading(false, 12, 0.5));
    assert Scan(".5", Whole(false, 12), true) == Some(Reading(false, 12, 0.5));
    assert Scan("2.5", Whole(false, 1), true) == Some(Reading(false, 12, 0.5));
    assert Scan(s, Lead, true) == Some(Reading(false, 12, 0.5));
  }

  /** Only the leading number counts: "3kg" is 3, and text with no leading
      number (NaN in the source) is read as 0. */
  lemma NumOfPrefix()
    ensures Num("3kg") == 3.0
    ensures Num("abc") == 0.0
  {
    assert "3kg"[1..] == "kg";
    assert Scan("kg", Whole(false, 3), true) == Some(Reading(false, 3, 0.0));
    assert Scan("3kg", Lead, true) == Some(Reading(false, 3, 0.0));
    assert Scan("abc", Lead, true) == None;
  }

  /** A leading space and a sign are accepted, and `parseInt` stops at the
      decimal point: " -7.9" reads as -7 and as -7.9. */
  lemma SignAndPoint()
    ensures Rev(" -7.9") == -7
    ensures Num(" -7.9") == -7.9
  {
    var s := " -7.9";
    assert s[1..] == "-7.9" && s[1..][1..] == "7.9" && "7.9"[1..] == ".9" && ".9"[1..] == "9" && "9"[1..] == "";
    assert Scan(".9", Whole(true, 7), false) == Some(Reading(true, 7, 0.0));
    assert Scan(s, Lead, false) == Some(Reading(true, 7, 0.0));
    assert Scan("9", Fraction(true, 7, 0.0, 0.1, true), true) == Some(Reading(true, 7, 0.9));
    assert Scan(s, Lead, true) == Some(Reading(true, 7, 0.9));
  }
}
