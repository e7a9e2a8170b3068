/**
  What Format writes: the date of the proleptic Gregorian calendar, the time of day, and the fraction of
  the second without trailing zeros. Dates are counted here by closed formulas.
 */
module Calendar {
  import opened Digits
  import opened Timestamps

  ghost predicate LeapYear(y: int) {
    y % 4 == 0 && (y % 100 != 0 || y % 400 == 0)
  }

  ghost const LENGTHS: seq<int> := [31, 28, 31, 30, 31, 30, 31, 31, 30, 31, 30, 31]

  ghost function LengthOfMonth(y: int, m: int): int
    requires 1 <= m <= 12
  {
    if m == 2 && LeapYear(y) then 29 else LENGTHS[m - 1]
  }

  /** Days from the first of January of the year 0 to the first of January of year `y`. */
  ghost function DaysToYear(y: nat): int {
    365 * y + (y + 3) / 4 - (y + 99) / 100 + (y + 399) / 400
  }

  ghost function DaysToMonth(y: int, m: int): int
    requires 1 <= m <= 12
  {
    if m == 1 then 0 else DaysToMonth(y, m - 1) + LengthOfMonth(y, m - 1)
  }

  ghost predicate IsDate(y: int, m: int, d: int) {
    0 <= y <= 9999 && 1 <= m <= 12 && 1 <= d <= LengthOfMonth(y, m)
  }

  ghost predicate IsTime(h: int, mi: int, s: int, ns: int) {
    0 <= h < 24 && 0 <= mi < 60 && 0 <= s < 60 && 0 <= ns < 1_000_000_000
  }

  /** The instant of a UTC date and time, in nanoseconds since the beginning of the year 0. */
  ghost function InstantOf(y: nat, m: int, d: int, h: int, mi: int, s: int, ns: int): int
    requires 1 <= m <= 12
  {
    (((DaysToYear(y) + DaysToMonth(y, m) + d - 1) * 24 + h) * 60 + mi) * 60_000_000_000 + s * 1_000_000_000 + ns
  }

  ghost function D(n: int): char {
    (48 + n % 10) as char
  }

  ghost function Two(n: int): string {
    [D(n / 10), D(n)]
  }

  ghost function Four(n: int): string {
    [D(n / 1000), D(n / 100), D(n / 10), D(n)]
  }

  /** The number a text of digits stands for. */
  ghost function Number(s: string): int {
    if s == [] then 0 else Number(s[..|s| - 1]) * 10 + s[|s| - 1] as int - 48
  }

  ghost function Power(n: nat): int {
    if n == 0 then 1 else Power(n - 1) * 10
  }

  /** At most nine digits that do not end in 0 and stand for `ns` billionths. */
  ghost predicate IsFraction(f: string, ns: int) {
    && |f| <= 9 && (forall i :: 0 <= i < |f| ==> '0' <= f[i] <= '9')
    && (f != "" ==> f[|f| - 1] != '0') && Number(f) * Power(9 - |f|) == ns
  }

  // ----- Days -----

  lemma {:induction false} YearsMean(y: nat)
    ensures DaysBeforeYear(y) == DaysToYear(y)
  {
    if y > 0 {
      YearsMean(y - 1);
      OneYear(y - 1);
    }
  }

  lemma OneYear(y: nat)
    ensures DaysToYear(y + 1) == DaysToYear(y) + YearDays(y)
  {
    assert (y + 4) / 4 == (y + 3) / 4 + if y % 4 == 0 then 1 else 0;
    assert (y + 100) / 100 == (y + 99) / 100 + if y % 100 == 0 then 1 else 0;
    assert (y + 400) / 400 == (y + 399) / 400 + if y % 400 == 0 then 1 else 0;
  }

  lemma {:induction false} MonthsMean(y: nat, m: int)
    requires 1 <= m <= 12
    ensures DaysBeforeMonth(y, m) == DaysToMonth(y, m) && MonthDays(y, m) == LengthOfMonth(y, m)
    decreases m
  {
    if m > 1 { MonthsMean(y, m - 1); }
  }

  /** The day and the place in it are the only ones. */
  lemma {:induction false} YearIsUnique(y: nat, n: nat)
    requires n < YearDays(y)
    ensures YearOf(DaysBeforeYear(y) + n, 0) == (y, n)
  {
    hide YearDays;
    var r := YearOf(DaysBeforeYear(y) + n, 0);
    if r.0 < y { YearsGrow(r.0, y); }
    if y < r.0 { YearsGrow(y, r.0); }
  }

  lemma {:induction false} MonthIsUnique(y: nat, m: int, k: nat)
    requires 1 <= m <= 12 && k < MonthDays(y, m)
    ensures DaysBeforeMonth(y, m) + k < YearDays(y) && MonthOf(y, DaysBeforeMonth(y, m) + k, 1) == (m, k)
  {
    var n := DaysBeforeMonth(y, m) + k;
    if m < 12 { MonthsGrow(y, m, 12); }
    assert DaysBeforeMonth(y, 1) == 0;
    var q := MonthOf(y, n, 1);
    if q.0 < m { MonthsGrow(y, q.0, m); }
    if m < q.0 { MonthsGrow(y, m, q.0); }
  }

  /** A date is the only one of its day. */
  lemma {:induction false} DateIsUnique(y: nat, m: int, d: int)
    requires IsDate(y, m, d)
    ensures var day := DaysToYear(y) + DaysToMonth(y, m) + d - 1;
            && day >= 0 && YearOf(day, 0).0 == y && MonthOf(y, YearOf(day, 0).1, 1) == (m, d - 1)
  {
    hide DaysToYear, DaysToMonth, LengthOfMonth, YearOf, MonthOf, YearDays, DaysBeforeYear, DaysBeforeMonth;
    YearsMean(y);
    MonthsMean(y, m);
    MonthIsUnique(y, m, d - 1);
    YearIsUnique(y, DaysBeforeMonth(y, m) + d - 1);
  }

  // ----- The time of day -----

  /** What division finds in the instant of second `s` of minute `mi` of hour `h` of a day. */
  lemma ClockOf(day: nat, h: int, mi: int, s: int, ns: int)
    requires IsTime(h, mi, s, ns)
    ensures var t := ((day * 24 + h) * 60 + mi) * 60_000_000_000 + s * 1_000_000_000 + ns;
            var c := h * 3600 + mi * 60 + s;
            && t >= 0 && t % NANOS == ns && t / NANOS / DAY == day && t / NANOS % DAY == c
            && c / 3600 == h && c / 60 % 60 == mi && c % 60 == s
  {
    var c := h * 3600 + mi * 60 + s;
    var t := ((day * 24 + h) * 60 + mi) * 60_000_000_000 + s * 1_000_000_000 + ns;
    assert t == (day * DAY + c) * NANOS + ns;
    assert t / NANOS == day * DAY + c;
    assert c / 60 == h * 60 + mi;
  }

  lemma CivilOf(y: nat, m: int, d: int, h: int, mi: int, s: int, ns: int)
    requires IsDate(y, m, d) && IsTime(h, mi, s, ns)
    ensures var t := InstantOf(y, m, d, h, mi, s, ns);
            t >= 0 && InRange(t) && t % NANOS == ns && Civil(t / NANOS) == [y, m, d, h, mi, s]
  {
    hide DaysToYear, DaysToMonth, YearOf, MonthOf;
    DateIsUnique(y, m, d);
    ClockOf(DaysToYear(y) + DaysToMonth(y, m) + d - 1, h, mi, s, ns);
  }

  // ----- The text -----

  lemma {:induction false} LayoutFirst(n: int, ns: seq<int>, w: nat, ws: seq<nat>, sep: string, seps: seq<string>,
                                       tail: string)
    requires |ns| == |ws| == |seps| && 0 <= n < Pow10(w)
    requires forall i :: 0 <= i < |ns| ==> 0 <= ns[i] < Pow10(ws[i])
    ensures Layout([n] + ns, [w] + ws, [sep] + seps, tail) == Field(n, w) + (sep + Layout(ns, ws, seps, tail))
  {
    assert ([n] + ns)[1..] == ns && ([w] + ws)[1..] == ws && ([sep] + seps)[1..] == seps;
  }

  lemma FieldStep(n: int, w: nat)
    requires 0 <= n / 10 < Pow10(w)
    ensures 0 <= n < Pow10(w + 1) && Field(n, w + 1) == Field(n / 10, w) + [D(n)]
  {
  }

  lemma {:induction false} TwoDigits(n: int)
    requires 0 <= n < 100
    ensures Pow10(2) == 100 && Field(n, 2) == Two(n)
  {
    hide Field;
    assert Pow10(0) == 1 && Pow10(1) == 10 && Pow10(2) == 100;
    FieldStep(n / 10, 0);
    FieldStep(n, 1);
  }

  lemma {:induction false} FourDigits(n: int)
    requires 0 <= n < 10000
    ensures Pow10(4) == 10000 && Field(n, 4) == Four(n)
  {
    hide Field;
    assert Pow10(2) == 100 && Pow10(3) == 1000 && Pow10(4) == 10000;
    TwoDigits(n / 100);
    assert n / 10 / 10 == n / 100 && n / 100 / 10 == n / 1000;
    FieldStep(n / 10, 2);
    FieldStep(n, 3);
  }

  lemma {:induction false} LayoutOf(y: int, m: int, d: int, h: int, mi: int, s: int, tail: string)
    requires 0 <= y < 10000 && 0 <= m < 100 && 0 <= d < 100 && 0 <= h < 100 && 0 <= mi < 100 && 0 <= s < 100
    ensures Pow10(2) == 100 && Pow10(4) == 10000
    ensures Layout([y, m, d, h, mi, s], WIDTHS, SEPARATORS, tail)
            == Four(y) + ("-" + (Two(m) + ("-" + (Two(d) + ("T" + (Two(h) + (":" + (Two(mi) + (":" +
               (Two(s) + tail))))))))))
  {
    hide Layout, Field, Two, Four, Pow10;
    FourDigits(y); TwoDigits(m); TwoDigits(d); TwoDigits(h); TwoDigits(mi); TwoDigits(s);
    LayoutNone(tail);
    LayoutFirst(s, [], 2, [], "", [], tail);
    assert [s] + [] == [s] && [2] + [] == [2] && [""] + [] == [""] && "" + tail == tail;
    LayoutFirst(mi, [s], 2, [2], ":", [""], tail);
    assert [mi] + [s] == [mi, s] && [2] + [2] == [2, 2] && [":"] + [""] == [":", ""];
    LayoutFirst(h, [mi, s], 2, [2, 2], ":", [":", ""], tail);
    assert [h] + [mi, s] == [h, mi, s] && [2] + [2, 2] == [2, 2, 2] && [":"] + [":", ""] == [":", ":", ""];
    LayoutDate(y, m, d, [h, mi, s], [2, 2, 2], [":", ":", ""], tail);
    assert [y, m, d] + [h, mi, s] == [y, m, d, h, mi, s] && [4, 2, 2] + [2, 2, 2] == WIDTHS;
    assert ["-", "-", "T"] + [":", ":", ""] == SEPARATORS;
  }

  lemma {:induction false} LayoutDate(y: int, m: int, d: int, ns: seq<int>, ws: seq<nat>, seps: seq<string>,
                                      tail: string)
    requires 0 <= y < Pow10(4) && 0 <= m < Pow10(2) && 0 <= d < Pow10(2) && |ns| == |ws| == |seps|
    requires forall i :: 0 <= i < |ns| ==> 0 <= ns[i] < Pow10(ws[i])
    ensures Layout([y, m, d] + ns, [4, 2, 2] + ws, ["-", "-", "T"] + seps, tail)
            == Field(y, 4) + ("-" + (Field(m, 2) + ("-" + (Field(d, 2) + ("T" + Layout(ns, ws, seps, tail))))))
  {
    hide Layout, Field, Pow10;
    LayoutFirst(d, ns, 2, ws, "T", seps, tail);
    LayoutFirst(m, [d] + ns, 2, [2] + ws, "-", ["T"] + seps, tail);
    LayoutFirst(y, [m] + ([d] + ns), 4, [2] + ([2] + ws), "-", ["-"] + (["T"] + seps), tail);
    assert [y] + ([m] + ([d] + ns)) == [y, m, d] + ns && [4] + ([2] + ([2] + ws)) == [4, 2, 2] + ws;
    assert ["-"] + (["-"] + (["T"] + seps)) == ["-", "-", "T"] + seps;
  }

  lemma {:induction false} LayoutNone(tail: string)
    ensures Layout([], [], [], tail) == tail
  {
  }

  // ----- The fraction -----

  lemma {:induction false} FieldNumber(n: int, w: nat)
    requires 0 <= n < Pow10(w)
    ensures Number(Field(n, w)) == n
  {
    if w > 0 {
      FieldNumber(n / 10, w - 1);
      var s := Field(n, w);
      assert s[..|s| - 1] == Field(n / 10, w - 1);
    }
  }

  lemma {:induction false} TrimNumber(s: string)
    ensures Number(Trim(s)) * Power(|s| - |Trim(s)|) == Number(s)
  {
    if s != [] && s[|s| - 1] == '0' {
      var r, k := s[..|s| - 1], |s| - 1 - |Trim(s)|;
      TrimNumber(r);
      assert Number(Trim(r)) * Power(k) * 10 == Number(Trim(r)) * Power(k + 1);
    }
  }

  lemma FractionMeans(t: nat)
    ensures IsFraction(Fraction(t), t % NANOS)
  {
    assert Pow10(9) == NANOS;
    FieldNumber(t % NANOS, 9);
    TrimNumber(Field(t % NANOS, 9));
  }

  /** What follows the seconds. */
  lemma TailMeans(t: nat)
    ensures IsFraction(Fraction(t), t % NANOS)
    ensures Tail(t) == if t % NANOS == 0 then "Z" else "." + Fraction(t) + "Z"
  {
    hide IsFraction;
    FractionMeans(t);
    if t % NANOS == 0 {
      ZeroFraction(t);
      assert Tail(t) == "" + "Z";
    } else {
      FractionIsSome(Fraction(t), t % NANOS);
    }
  }

  lemma FractionIsSome(f: string, ns: int)
    requires IsFraction(f, ns) && ns != 0
    ensures f != ""
  {
  }

  /** The text of every date and time of the years 0 to 9999. */
  lemma FormatOf(y: nat, m: int, d: int, h: int, mi: int, s: int, ns: int) returns (f: string)
    requires IsDate(y, m, d) && IsTime(h, mi, s, ns)
    ensures InRange(InstantOf(y, m, d, h, mi, s, ns)) && IsFraction(f, ns)
    ensures Format(InstantOf(y, m, d, h, mi, s, ns))
            == Four(y) + "-" + Two(m) + "-" + Two(d) + "T" + Two(h) + ":" + Two(mi) + ":" + Two(s)
               + (if ns == 0 then "Z" else "." + f + "Z")
  {
    hide InstantOf, IsFraction, InRange, Civil, Tail, Fraction, Layout, Four, Two;
    var t := InstantOf(y, m, d, h, mi, s, ns);
    CivilOf(y, m, d, h, mi, s, ns);
    TailMeans(t);
    f := Fraction(t);
    LayoutOf(y, m, d, h, mi, s, Tail(t));
    Associate(Four(y), Two(m), Two(d), Two(h), Two(mi), Two(s), Tail(t));
  }

  lemma Associate(y: string, m: string, d: string, h: string, mi: string, s: string, tail: string)
    ensures y + ("-" + (m + ("-" + (d + ("T" + (h + (":" + (mi + (":" + (s + tail))))))))))
            == y + "-" + m + "-" + d + "T" + h + ":" + mi + ":" + s + tail
  {
    var p := y + "-" + m + "-" + d + "T";
    var q := h + (":" + (mi + (":" + (s + tail))));
    assert q == h + ":" + mi + ":" + s + tail;
    assert y + ("-" + (m + ("-" + (d + ("T" + q))))) == p + q;
    assert p + (h + ":" + mi + ":" + s + tail) == p + h + ":" + mi + ":" + s + tail;
  }

  /** Every instant of those years is the instant of a date and time. */
  lemma InstantIsSome(t: int) returns (y: nat, m: int, d: int, h: int, mi: int, s: int, ns: int)
    requires InRange(t)
    ensures IsDate(y, m, d) && IsTime(h, mi, s, ns) && InstantOf(y, m, d, h, mi, s, ns) == t
  {
    var day, c := t / NANOS / DAY, t / NANOS % DAY;
    y, m, d := DayIsSome(day);
    h, mi, s, ns := c / 3600, c / 60 % 60, c % 60, t % NANOS;
    assert c / 60 / 60 == h;
  }

  lemma DayIsSome(day: nat) returns (y: nat, m: int, d: int)
    requires YearOf(day, 0).0 <= 9999
    ensures IsDate(y, m, d) && DaysToYear(y) + DaysToMonth(y, m) + d - 1 == day
  {
    hide DaysToYear, DaysToMonth, LengthOfMonth, YearDays, MonthDays;
    var yd := YearOf(day, 0);
    var md := MonthOf(yd.0, yd.1, 1);
    y, m, d := yd.0, md.0, md.1 + 1;
    YearsMean(y);
    MonthsMean(y, m);
  }
}
