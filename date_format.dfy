/**
 * `pad` and `formatDate` of parseFromPdf.js: a date becomes
 * `${year}-${pad(month)}-${pad(day)}`, where `pad` puts a `0` before a
 * single digit. The conversion of a timestamp into local calendar fields
 * (`getFullYear`, `getMonth`, `getDate`) is not modelled: it is the
 * `CalendarDate` the caller supplies.
 */
module DateFormat {
  import opened DailySeries

  /** `getFullYear()`, `getMonth() + 1` and `getDate()` of a JavaScript Date. */
  datatype CalendarDate = CalendarDate(year: nat, month: nat, day: nat)

  /** A date whose year has four digits and whose month and day are in calendar range. */
  predicate ValidDate(d: CalendarDate)
  {
    1000 <= d.year <= 9999 && 1 <= d.month <= 12 && 1 <= d.day <= 31
  }

  /** Calendar order: by year, then month, then day. */
  predicate DateBefore(a: CalendarDate, b: CalendarDate)
  {
    a.year < b.year
    || (a.year == b.year && (a.month < b.month || (a.month == b.month && a.day < b.day)))
  }

  function DigitChar(d: nat): char
    requires d < 10
  {
    (48 + d) as char
  }

  /** The decimal notation a template literal gives a non-negative integer. */
  function NatToString(n: nat): string
  {
    if n < 10 then [DigitChar(n)] else NatToString(n / 10) + [DigitChar(n % 10)]
  }

  /** `pad`: a leading zero for numbers up to 9. */
  function Pad(n: nat): string
  {
    if n <= 9 then "0" + NatToString(n) else NatToString(n)
  }

  /** `formatDate`. */
  function FormatDate(d: CalendarDate): string
  {
    NatToString(d.year) + "-" + Pad(d.month) + "-" + Pad(d.day)
  }

  // ---------------------------------------------------------------------
  // Lengths

  lemma {:induction false} NatToStringLength(n: nat)
    ensures |NatToString(n)| >= 1
    ensures |NatToString(n)| == 1 <==> n < 10
  {
    if n >= 10 {
      NatToStringLength(n / 10);
    }
  }

  lemma FourDigitYear(y: nat)
    requires 1000 <= y <= 9999
    ensures |NatToString(y)| == 4
  {
    NatToStringLength(y / 1000);
    assert NatToString(y / 100) == NatToString(y / 1000) + [DigitChar(y / 100 % 10)];
    assert NatToString(y / 10) == NatToString(y / 100) + [DigitChar(y / 10 % 10)];
  }

  lemma PadLength(n: nat)
    requires n <= 99
    ensures |Pad(n)| == 2
  {
    if n > 9 {
      NatToStringLength(n / 10);
    }
  }

  // ---------------------------------------------------------------------
  // Order

  /** Equal-length heads split a concatenation. */
  lemma ConcatEqual(a1: string, b1: string, a2: string, b2: string)
    requires |a1| == |a2|
    ensures a1 + b1 == a2 + b2 <==> a1 == a2 && b1 == b2
  {
    if a1 + b1 == a2 + b2 {
      assert a1 == (a1 + b1)[..|a1|] && a2 == (a2 + b2)[..|a2|];
      assert b1 == (a1 + b1)[|a1|..] && b2 == (a2 + b2)[|a2|..];
    }
  }

  /** Comparing two concatenations whose heads have equal length compares the heads, then the tails. */
  lemma {:induction false} StrLessConcat(a1: string, b1: string, a2: string, b2: string)
    requires |a1| == |a2|
    ensures StrLess(a1 + b1, a2 + b2) <==> StrLess(a1, a2) || (a1 == a2 && StrLess(b1, b2))
  {
    if |a1| == 0 {
      assert a1 + b1 == b1 && a2 + b2 == b2;
    } else {
      StrLessConcat(a1[1..], b1, a2[1..], b2);
      assert (a1 + b1)[1..] == a1[1..] + b1;
      assert (a2 + b2)[1..] == a2[1..] + b2;
      assert a1 == [a1[0]] + a1[1..] && a2 == [a2[0]] + a2[1..];
    }
  }

  /** Decimal strings of equal length compare as the numbers they write. */
  lemma {:induction false} NatToStringOrder(n: nat, m: nat)
    requires |NatToString(n)| == |NatToString(m)|
    ensures StrLess(NatToString(n), NatToString(m)) <==> n < m
    ensures NatToString(n) == NatToString(m) <==> n == m
  {
    NatToStringLength(n);
    NatToStringLength(m);
    if n >= 10 {
      assert m >= 10;
      var hn, hm := NatToString(n / 10), NatToString(m / 10);
      NatToStringOrder(n / 10, m / 10);
      StrLessConcat(hn, [DigitChar(n % 10)], hm, [DigitChar(m % 10)]);
      ConcatEqual(hn, [DigitChar(n % 10)], hm, [DigitChar(m % 10)]);
      assert n == 10 * (n / 10) + n % 10 && m == 10 * (m / 10) + m % 10;
    }
  }

  /** Padded day and month numbers compare as the numbers. */
  lemma PadOrder(n: nat, m: nat)
    requires n <= 99 && m <= 99
    ensures StrLess(Pad(n), Pad(m)) <==> n < m
    ensures Pad(n) == Pad(m) <==> n == m
  {
    NatToStringLength(n);
    NatToStringLength(m);
    if n <= 9 && m <= 9 {
      NatToStringOrder(n, m);
      StrLessConcat("0", NatToString(n), "0", NatToString(m));
      ConcatEqual("0", NatToString(n), "0", NatToString(m));
    } else if n > 9 && m > 9 {
      NatToStringLength(n / 10);
      NatToStringLength(m / 10);
      NatToStringOrder(n, m);
    } else if n <= 9 {
      NatToStringLength(m / 10);
      assert Pad(m)[0] == DigitChar(m / 10);
    } else {
      NatToStringLength(n / 10);
      assert Pad(n)[0] == DigitChar(n / 10);
    }
  }

  /**
   * On valid dates, comparing the formatted strings (as the merge's sort
   * does) is comparing the dates.
   */
  lemma FormatDateOrder(d1: CalendarDate, d2: CalendarDate)
    requires ValidDate(d1) && ValidDate(d2)
    ensures StrLess(FormatDate(d1), FormatDate(d2)) <==> DateBefore(d1, d2)
    ensures FormatDate(d1) == FormatDate(d2) <==> d1 == d2
  {
    FourDigitYear(d1.year);
    FourDigitYear(d2.year);
    PadLength(d1.month);
    PadLength(d2.month);
    var y1, y2 := NatToString(d1.year), NatToString(d2.year);
    var p2a, p2b := y1 + "-", y2 + "-";
    var p3a, p3b := p2a + Pad(d1.month), p2b + Pad(d2.month);
    var p4a, p4b := p3a + "-", p3b + "-";
    NatToStringOrder(d1.year, d2.year);
    StrLessConcat(y1, "-", y2, "-");
    ConcatEqual(y1, "-", y2, "-");
    StrLessIrreflexive("-");
    PadOrder(d1.month, d2.month);
    StrLessConcat(p2a, Pad(d1.month), p2b, Pad(d2.month));
    ConcatEqual(p2a, Pad(d1.month), p2b, Pad(d2.month));
    StrLessConcat(p3a, "-", p3b, "-");
    ConcatEqual(p3a, "-", p3b, "-");
    PadOrder(d1.day, d2.day);
    StrLessConcat(p4a, Pad(d1.day), p4b, Pad(d2.day));
    ConcatEqual(p4a, Pad(d1.day), p4b, Pad(d2.day));
  }
}
