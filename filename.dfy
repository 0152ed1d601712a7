/** The attachment filename that `main` in readwise_emails.js derives from
    the local date. The date arrives as three integers: the full year,
    `getMonth()` (zero-based) and `getDate()`. */
module Filename {
  import opened Highlights

  const FilenamePrefix := "Readwise Daily Highlights - "
  const FilenameSuffix := ".pdf"

  predicate IsDigit(c: char) { '0' <= c <= '9' }

  predicate AllDigits(s: string) { forall i :: 0 <= i < |s| ==> IsDigit(s[i]) }

  function DigitChar(d: nat): (c: char)
    requires d < 10
    ensures IsDigit(c) && c as int - '0' as int == d
  {
    "0123456789"[d]
  }

  /** `String(n)` for a natural number: its decimal digits, without leading zeros. */
  function NatToString(n: nat): (s: string)
    ensures 1 <= |s| && AllDigits(s)
    ensures |s| > 1 ==> s[0] != '0'
  {
    if n < 10 then [DigitChar(n)] else NatToString(n / 10) + [DigitChar(n % 10)]
  }

  /** `String(i)` for an integer. */
  function IntToString(i: int): string {
    if i < 0 then "-" + NatToString(-i) else NatToString(i)
  }

  /** `padStart` with a one-character fill: `fill` repeated in front of `s` until it is `width` long. */
  function PadStart(s: string, width: nat, fill: char): (r: string)
    ensures |r| == if |s| >= width then |s| else width
    ensures r[|r| - |s|..] == s
    ensures forall k :: 0 <= k < |r| - |s| ==> r[k] == fill
  {
    if |s| >= width then s else seq(width - |s|, _ => fill) + s
  }

  /** Year, one-based month and day joined by dashes, month and day padded to two digits. */
  function FormatDate(year: int, monthIndex: int, day: int): string {
    IntToString(year) + "-" + PadStart(IntToString(monthIndex + 1), 2, '0') + "-" + PadStart(IntToString(day), 2, '0')
  }

  /** The fixed prefix, the formatted date and the `.pdf` extension. */
  function AttachmentFilename(year: int, monthIndex: int, day: int): string {
    FilenamePrefix + FormatDate(year, monthIndex, day) + FilenameSuffix
  }

  /** The value of a string of decimal digits. */
  function DecimalValue(s: string): nat
    requires AllDigits(s)
  {
    if s == [] then 0 else 10 * DecimalValue(s[..|s| - 1]) + (s[|s| - 1] as int - '0' as int)
  }

  /** Reading the calendar date back out of an attachment filename with a
      four-digit year; the month comes back one-based. */
  function ParseFilename(name: string): Option<(nat, nat, nat)> {
    if |name| == 42 && name[..28] == FilenamePrefix && name[38..] == FilenameSuffix
       && name[32] == '-' && name[35] == '-'
       && AllDigits(name[28..32]) && AllDigits(name[33..35]) && AllDigits(name[36..38])
    then Some((DecimalValue(name[28..32]), DecimalValue(name[33..35]), DecimalValue(name[36..38])))
    else None
  }

  /** `String` and the digits it produces are inverse. */
  lemma {:induction false} DecimalOfNatToString(n: nat)
    ensures DecimalValue(NatToString(n)) == n
  {
    if n >= 10 {
      var s := NatToString(n);
      assert s[..|s| - 1] == NatToString(n / 10);
      DecimalOfNatToString(n / 10);
    }
  }

  /** The number of decimal digits of numbers below 10000. */
  lemma NatToStringLength(n: nat)
    ensures n < 10 ==> |NatToString(n)| == 1
    ensures 10 <= n < 100 ==> |NatToString(n)| == 2
    ensures 1000 <= n < 10000 ==> |NatToString(n)| == 4
  {
    if n >= 10 {
      NatToStringLength(n / 10);
      if n >= 1000 {
        NatToStringLength(n / 100);
      }
    }
  }

  /** `padStart(2, '0')` prefixes a single digit with "0" and leaves two
      digits alone, so months 1..12 and days 1..31 always take two characters. */
  lemma PadTwoDigits(n: int)
    requires 1 <= n <= 99
    ensures n <= 9 ==> PadStart(IntToString(n), 2, '0') == ['0', DigitChar(n)]
    ensures 10 <= n ==> PadStart(IntToString(n), 2, '0') == IntToString(n)
    ensures |PadStart(IntToString(n), 2, '0')| == 2
  {
    NatToStringLength(n);
  }

  /** The padded field is two digits that read back as the number. */
  lemma TwoDigitField(n: int)
    requires 1 <= n <= 99
    ensures |PadStart(IntToString(n), 2, '0')| == 2
    ensures AllDigits(PadStart(IntToString(n), 2, '0'))
    ensures DecimalValue(PadStart(IntToString(n), 2, '0')) == n
  {
    PadTwoDigits(n);
    DecimalOfNatToString(n);
    var p := PadStart(IntToString(n), 2, '0');
    if n <= 9 {
      assert p[..1] == ['0'];
    }
  }

  /** A four-digit year is written as four digits that read back as the year. */
  lemma YearDigits(year: int)
    requires 1000 <= year <= 9999
    ensures |IntToString(year)| == 4 && AllDigits(IntToString(year))
    ensures DecimalValue(IntToString(year)) == year
  {
    NatToStringLength(year);
    DecimalOfNatToString(year);
  }

  /** Any `YYYY-MM-DD` made of digits is read back field by field. */
  lemma ParseFields(name: string, y: string, m: string, d: string)
    requires |y| == 4 && |m| == 2 && |d| == 2
    requires AllDigits(y) && AllDigits(m) && AllDigits(d)
    requires name == FilenamePrefix + (y + "-" + m + "-" + d) + FilenameSuffix
    ensures |name| == 42
    ensures ParseFilename(name) == Some((DecimalValue(y), DecimalValue(m), DecimalValue(d)))
  {
    assert name[..28] == FilenamePrefix && name[38..] == FilenameSuffix;
    assert forall i :: 0 <= i < 4 ==> name[28..32][i] == y[i];
    assert forall i :: 0 <= i < 2 ==> name[33..35][i] == m[i];
    assert forall i :: 0 <= i < 2 ==> name[36..38][i] == d[i];
    assert name[28..32] == y && name[33..35] == m && name[36..38] == d;
    assert name[32] == '-' && name[35] == '-';
  }

  lemma FilenameParts(year: int, monthIndex: int, day: int, y: string, m: string, d: string)
    requires y == IntToString(year)
    requires m == PadStart(IntToString(monthIndex + 1), 2, '0')
    requires d == PadStart(IntToString(day), 2, '0')
    ensures AttachmentFilename(year, monthIndex, day) == FilenamePrefix + (y + "-" + m + "-" + d) + FilenameSuffix
  {
  }

  /** For a four-digit year, the filename has the fixed prefix and suffix
      around `YYYY-MM-DD`, and the date read back from it is the date it was
      made from, with the zero-based month turned one-based. */
  lemma FilenameRoundTrip(year: int, monthIndex: int, day: int)
    requires 1000 <= year <= 9999 && 0 <= monthIndex <= 11 && 1 <= day <= 31
    ensures |AttachmentFilename(year, monthIndex, day)| == 42
    ensures ParseFilename(AttachmentFilename(year, monthIndex, day)) == Some((year, monthIndex + 1, day))
  {
    var y := IntToString(year);
    var m := PadStart(IntToString(monthIndex + 1), 2, '0');
    var d := PadStart(IntToString(day), 2, '0');
    YearDigits(year);
    TwoDigitField(monthIndex + 1);
    TwoDigitField(day);
    ParseFields(FilenamePrefix + (y + "-" + m + "-" + d) + FilenameSuffix, y, m, d);
    FilenameParts(year, monthIndex, day, y, m, d);
  }

  /** Different dates give different filenames. */
  lemma FilenameInjective(y1: int, m1: int, d1: int, y2: int, m2: int, d2: int)
    requires 1000 <= y1 <= 9999 && 0 <= m1 <= 11 && 1 <= d1 <= 31
    requires 1000 <= y2 <= 9999 && 0 <= m2 <= 11 && 1 <= d2 <= 31
    requires AttachmentFilename(y1, m1, d1) == AttachmentFilename(y2, m2, d2)
    ensures y1 == y2 && m1 == m2 && d1 == d2
  {
    FilenameRoundTrip(y1, m1, d1);
    FilenameRoundTrip(y2, m2, d2);
  }
}
