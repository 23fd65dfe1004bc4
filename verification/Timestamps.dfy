/** The text of a time stamp, `YYYY-MM-DD HH:MM:SS UTC`, and when texts sort like the instants. */
module Timestamps {
  import opened Calendar
  import opened Text

  // ----- Zero-padded numbers -----

  function Pow10(w: nat): nat {
    if w == 0 then 1 else 10 * Pow10(w - 1)
  }

  /** The last `w` decimal digits. */
  function Digits(n: nat, w: nat): (s: string)
    ensures |s| == w && forall i :: 0 <= i < |s| ==> IsDigit(s[i])
  {
    if w == 0 then "" else Digits(n / 10, w - 1) + [Digit(n % 10)]
  }

  /** `{:02}` and `{:04}`: at least `w` digits. */
  function Padded(n: nat, w: nat): (s: string)
    ensures forall i :: 0 <= i < |s| ==> IsDigit(s[i])
  {
    if n < Pow10(w) then Digits(n, w) else Decimal(n)
  }

  /** `format_epoch`. */
  function FormatEpoch(epochSecs: nat): string {
    var p := StampOf(epochSecs);
    Padded(p.date.year, 4) + "-" + Rest(p)
  }

  /** Everything after the year. */
  function Rest(p: Stamp): string {
    Padded(p.date.month, 2) + ("-" + (Padded(p.date.day, 2) + (" " + ClockText(p))))
  }

  function ClockText(p: Stamp): string {
    Padded(p.hours, 2) + (":" + (Padded(p.minutes, 2) + (":" + (Padded(p.seconds, 2) + " UTC"))))
  }

  // ----- The order of texts -----

  function TextLess(a: string, b: string): bool {
    if b == "" then false
    else if a == "" then true
    else if a[0] != b[0] then a[0] < b[0]
    else TextLess(a[1..], b[1..])
  }

  lemma {:induction false} TextLessAsymmetric(a: string, b: string)
    ensures !(TextLess(a, b) && TextLess(b, a)) && !TextLess(a, a)
  {
    if a != "" && b != "" {
      TextLessAsymmetric(a[1..], b[1..]);
    } else if a != "" {
      TextLessAsymmetric(a[1..], "");
    }
  }

  lemma {:induction false} TextLessTotal(a: string, b: string)
    ensures a == b || TextLess(a, b) || TextLess(b, a)
  {
    if a != "" && b != "" {
      TextLessTotal(a[1..], b[1..]);
      assert a == [a[0]] + a[1..] && b == [b[0]] + b[1..];
    }
  }

  lemma {:induction false} CommonHead(p: string, a: string, b: string)
    ensures TextLess(p + a, p + b) == TextLess(a, b)
  {
    if p == "" {
      assert p + a == a && p + b == b;
    } else {
      CommonHead(p[1..], a, b);
      assert (p + a)[1..] == p[1..] + a && (p + b)[1..] == p[1..] + b;
    }
  }

  /** Between texts of equal length the tails do not matter. */
  lemma {:induction false} HeadDecides(a: string, b: string, x: string, y: string)
    requires |a| == |b| && TextLess(a, b)
    ensures TextLess(a + x, b + y)
  {
    if a[0] == b[0] {
      HeadDecides(a[1..], b[1..], x, y);
    }
    assert (a + x)[1..] == a[1..] + x && (b + y)[1..] == b[1..] + y;
  }

  /** Nor after numbers of any length, if a dash follows: it sorts before the digits. */
  lemma {:induction false} NumberDecides(a: string, b: string, x: string, y: string)
    requires (forall i :: 0 <= i < |a| ==> IsDigit(a[i])) && (forall i :: 0 <= i < |b| ==> IsDigit(b[i]))
    requires TextLess(a, b)
    ensures TextLess(a + "-" + x, b + "-" + y)
  {
    assert (b + "-" + y)[0] == b[0];
    if a == "" {
      assert (a + "-" + x)[0] == '-' && IsDigit(b[0]);
    } else {
      assert (a + "-" + x)[0] == a[0];
      if a[0] == b[0] {
        NumberDecides(a[1..], b[1..], x, y);
        assert (a + "-" + x)[1..] == a[1..] + "-" + x && (b + "-" + y)[1..] == b[1..] + "-" + y;
      }
    }
  }

  // ----- Numbers in order -----

  lemma DigitOrder(m: nat, n: nat)
    requires m < n < 10
    ensures Digit(m) < Digit(n)
  {
  }

  lemma SingleLess(a: char, b: char)
    requires a < b
    ensures TextLess([a], [b])
  {
  }

  lemma {:induction false} DigitsOrder(m: nat, n: nat, w: nat)
    requires m < n < Pow10(w)
    ensures TextLess(Digits(m, w), Digits(n, w))
  {
    hide TextLess;
    var a, b := [Digit(m % 10)], [Digit(n % 10)];
    if m / 10 < n / 10 {
      DigitsOrder(m / 10, n / 10, w - 1);
      HeadDecides(Digits(m / 10, w - 1), Digits(n / 10, w - 1), a, b);
    } else {
      DigitOrder(m % 10, n % 10);
      SingleLess(Digit(m % 10), Digit(n % 10));
      CommonHead(Digits(m / 10, w - 1), a, b);
    }
  }

  /** Two-digit fields decide by their numbers; equal ones leave it to what follows. */
  lemma FieldDecides(m: nat, n: nat, x: string, y: string)
    requires m < 100 && n < 100
    ensures m < n ==> TextLess(Padded(m, 2) + x, Padded(n, 2) + y)
    ensures m == n ==> TextLess(Padded(m, 2) + x, Padded(n, 2) + y) == TextLess(x, y)
  {
    hide TextLess, Digits;
    assert Pow10(1) == 10 && Pow10(2) == 100;
    if m < n {
      DigitsOrder(m, n, 2);
      HeadDecides(Padded(m, 2), Padded(n, 2), x, y);
    } else if m == n {
      CommonHead(Padded(m, 2), x, y);
    }
  }

  lemma SeparatorSame(c: char, x: string, y: string)
    ensures TextLess([c] + x, [c] + y) == TextLess(x, y)
  {
    CommonHead([c], x, y);
  }

  ghost predicate ClockRange(p: Stamp) {
    p.hours < 24 && p.minutes < 60 && p.seconds < 60
  }

  ghost predicate ClockBefore(p: Stamp, q: Stamp) {
    p.hours < q.hours ||
    (p.hours == q.hours && (p.minutes < q.minutes || (p.minutes == q.minutes && p.seconds < q.seconds)))
  }

  lemma ClockTextOrder(p: Stamp, q: Stamp)
    requires ClockRange(p) && ClockRange(q) && ClockBefore(p, q)
    ensures TextLess(ClockText(p), ClockText(q))
  {
    hide TextLess, Padded;
    var s, t := Padded(p.seconds, 2) + " UTC", Padded(q.seconds, 2) + " UTC";
    var m, n := Padded(p.minutes, 2) + (":" + s), Padded(q.minutes, 2) + (":" + t);
    FieldDecides(p.hours, q.hours, ":" + m, ":" + n);
    SeparatorSame(':', m, n);
    FieldDecides(p.minutes, q.minutes, ":" + s, ":" + t);
    SeparatorSame(':', s, t);
    FieldDecides(p.seconds, q.seconds, " UTC", " UTC");
  }

  ghost predicate DateRange(d: Date) {
    d.month < 100 && d.day < 100
  }

  lemma RestOrder(p: Stamp, q: Stamp)
    requires ClockRange(p) && ClockRange(q) && DateRange(p.date) && DateRange(q.date)
    requires p.date.year == q.date.year && StampBefore(p, q)
    ensures TextLess(Rest(p), Rest(q))
  {
    hide TextLess, Padded, ClockText;
    var c, d := ClockText(p), ClockText(q);
    var x, y := Padded(p.date.day, 2) + (" " + c), Padded(q.date.day, 2) + (" " + d);
    FieldDecides(p.date.month, q.date.month, "-" + x, "-" + y);
    SeparatorSame('-', x, y);
    FieldDecides(p.date.day, q.date.day, " " + c, " " + d);
    SeparatorSame(' ', c, d);
    if p.date == q.date {
      ClockTextOrder(p, q);
    }
  }

  // ----- Stamps in order -----

  lemma StampRange(s: nat)
    ensures ClockRange(StampOf(s)) && DateRange(StampOf(s).date)
  {
    hide DaysToYmd, YmdToDays;
    StampInverse(s);
    DaysToYmdNext(s / 86400);
    ValidRange(DaysToYmd(s / 86400));
  }

  lemma ValidRange(d: Date)
    requires ValidDate(d)
    ensures DateRange(d)
  {
  }

  /** The texts of two instants sort like the instants exactly when they show the same year or their
      year texts sort like that. */
  lemma TextOrderIff(s: nat, t: nat)
    requires s < t
    ensures var y, z := StampOf(s).date.year, StampOf(t).date.year;
      TextLess(FormatEpoch(s), FormatEpoch(t)) <==> y == z || TextLess(Padded(y, 4), Padded(z, 4))
  {
    hide TextLess, Padded, Rest, StampOf, StampBefore;
    var p, q := StampOf(s), StampOf(t);
    var y, z := p.date.year, q.date.year;
    StampsOrdered(s, t);
    StampRange(s);
    StampRange(t);
    if y == z {
      RestOrder(p, q);
      CommonHead(Padded(y, 4) + "-", Rest(p), Rest(q));
    } else if TextLess(Padded(y, 4), Padded(z, 4)) {
      NumberDecides(Padded(y, 4), Padded(z, 4), Rest(p), Rest(q));
    } else {
      TextLessTotal(Padded(y, 4), Padded(z, 4));
      if Padded(y, 4) == Padded(z, 4) {
        PaddedInjective(y, z);
      } else {
        NumberDecides(Padded(z, 4), Padded(y, 4), Rest(q), Rest(p));
        TextLessAsymmetric(FormatEpoch(s), FormatEpoch(t));
      }
    }
  }

  lemma {:induction false} DigitsInjective(m: nat, n: nat, w: nat)
    requires m < Pow10(w) && n < Pow10(w) && Digits(m, w) == Digits(n, w)
    ensures m == n
  {
    hide TextLess;
    if m < n {
      DigitsOrder(m, n, w);
      TextLessAsymmetric(Digits(m, w), Digits(n, w));
    } else if n < m {
      DigitsOrder(n, m, w);
      TextLessAsymmetric(Digits(m, w), Digits(n, w));
    }
  }

  lemma {:induction false} DecimalLength(n: nat, w: nat)
    requires n >= Pow10(w)
    ensures |Decimal(n)| > w
  {
    if w > 0 {
      assert Pow10(w) >= 10 by { Pow10Positive(w - 1); }
      DecimalLength(n / 10, w - 1);
    }
  }

  lemma {:induction false} Pow10Positive(w: nat)
    ensures Pow10(w) >= 1
  {
    if w > 0 {
      Pow10Positive(w - 1);
    }
  }

  lemma PaddedInjective(m: nat, n: nat)
    requires Padded(m, 4) == Padded(n, 4)
    ensures m == n
  {
    hide Pow10, Digits, Decimal;
    if m < Pow10(4) && n < Pow10(4) {
      DigitsInjective(m, n, 4);
    } else if m >= Pow10(4) && n >= Pow10(4) {
      DecimalValue(m);
      DecimalValue(n);
    } else {
      if m >= Pow10(4) {
        DecimalLength(m, 4);
      } else {
        DecimalLength(n, 4);
      }
      assert false;
    }
  }

  /** Through the year 9999 texts sort like instants. */
  lemma TextOrder(s: nat, t: nat)
    requires s < t && StampOf(t).date.year <= 9999
    ensures TextLess(FormatEpoch(s), FormatEpoch(t))
  {
    hide TextLess, FormatEpoch, StampOf, Digits;
    var y, z := StampOf(s).date.year, StampOf(t).date.year;
    TextOrderIff(s, t);
    YearsOrdered(s, t);
    assert Pow10(1) == 10 && Pow10(2) == 100 && Pow10(3) == 1000 && Pow10(4) == 10000;
    if y < z {
      DigitsOrder(y, z, 4);
    }
  }

  lemma YearsOrdered(s: nat, t: nat)
    requires s < t
    ensures StampOf(s).date.year <= StampOf(t).date.year
  {
    hide StampOf;
    StampsOrdered(s, t);
  }

  /** The text determines the instant, in every year. */
  lemma TextDeterminesInstant(s: nat, t: nat)
    requires FormatEpoch(s) == FormatEpoch(t)
    ensures s == t
  {
    hide TextLess, FormatEpoch, StampOf;
    if s < t {
      TextsDiffer(s, t);
    } else if t < s {
      TextsDiffer(t, s);
    }
  }

  lemma TextsDiffer(s: nat, t: nat)
    requires s < t
    ensures FormatEpoch(s) != FormatEpoch(t)
  {
    hide TextLess, StampOf, Rest, Padded;
    var y, z := StampOf(s).date.year, StampOf(t).date.year;
    TextLessAsymmetric(FormatEpoch(s), FormatEpoch(s));
    if y == z {
      TextOrderIff(s, t);
    } else {
      TextLessTotal(Padded(y, 4), Padded(z, 4));
      if Padded(y, 4) == Padded(z, 4) {
        PaddedInjective(y, z);
      } else if TextLess(Padded(y, 4), Padded(z, 4)) {
        TextOrderIff(s, t);
      } else {
        NumberDecides(Padded(z, 4), Padded(y, 4), Rest(StampOf(t)), Rest(StampOf(s)));
      }
    }
  }

  lemma YearTexts()
    ensures Padded(9999, 4) == "9999" && Padded(10000, 4) == "10000"
  {
    assert Pow10(1) == 10 && Pow10(2) == 100 && Pow10(3) == 1000 && Pow10(4) == 10000;
    assert Digits(9, 1) == "9";
    assert Digits(99, 2) == "99";
    assert Digits(999, 3) == "999";
    assert Decimal(10) == "10";
    assert Decimal(100) == "100";
    assert Decimal(1000) == "1000";
  }

  lemma LastDayOf9999()
    ensures DaysToYmd(2932896) == Date(9999, 12, 31) && DaysToYmd(2932897) == Date(10000, 1, 1)
  {
    hide DaysToYmd, YearStart;
    YearStartClosed(9999);
    var y, doy := DaysToYmdIsCivil(2932896);
    YearUnique(3652364, y, doy, 9999, 305);
    DaysToYmdNext(2932896);
  }

  /** One second later they do not: the last of the year 9999 sorts after the first of 10000. */
  lemma TextOrderBreaks()
    ensures StampOf(253402300799).date.year == 9999 && StampOf(253402300800).date.year == 10000
    ensures !TextLess(FormatEpoch(253402300799), FormatEpoch(253402300800))
  {
    hide FormatEpoch, Padded, DaysToYmd;
    LastDayOf9999();
    assert 253402300799 / 86400 == 2932896 && 253402300800 / 86400 == 2932897;
    TextOrderIff(253402300799, 253402300800);
    YearTexts();
  }

  lemma EpochNumbers()
    ensures Padded(1970, 4) == "1970" && Padded(1, 2) == "01" && Padded(0, 2) == "00"
  {
    assert Pow10(1) == 10 && Pow10(2) == 100 && Pow10(3) == 1000 && Pow10(4) == 10000;
    assert Digits(0, 1) == "0" && Digits(1, 1) == "1";
    assert Digits(19, 2) == "19";
    assert Digits(197, 3) == "197";
  }

  lemma EpochClock(p: Stamp)
    requires p.hours == p.minutes == p.seconds == 0
    ensures ClockText(p) == "00:00:00 UTC"
  {
    hide Padded;
    EpochNumbers();
  }

  lemma EpochRest(p: Stamp)
    requires p == Stamp(Date(1970, 1, 1), 0, 0, 0)
    ensures Rest(p) == "01-01 00:00:00 UTC"
  {
    hide Padded, ClockText;
    EpochNumbers();
    EpochClock(p);
  }

  /** The epoch, as text. */
  lemma EpochText()
    ensures FormatEpoch(0) == "1970-01-01 00:00:00 UTC"
  {
    hide DaysToYmd, Padded, Rest;
    DayZero();
    EpochNumbers();
    EpochRest(StampOf(0));
  }
}
