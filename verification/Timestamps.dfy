/**
  Textual timestamps. The store formats UTC instants with Go's RFC3339Nano layout, which
  drops trailing zeros of the fraction, and decides expiry by comparing the texts byte by byte.
  An instant is a number of nanoseconds since 0000-01-01T00:00:00Z.
 */
module Timestamps {
  import opened Digits

  const NANOS: int := 1_000_000_000
  const DAY: int := 86400

  // ----- Texts and their order -----

  /** SQLite's BINARY collation: the texts compared byte by byte, a proper prefix first. */
  predicate Less(a: string, b: string) {
    b != [] && (a == [] || a[0] < b[0] || (a[0] == b[0] && Less(a[1..], b[1..])))
  }

  lemma {:induction false} LessTotal(a: string, b: string)
    ensures Less(a, b) || a == b || Less(b, a)
    ensures !(Less(a, b) && Less(b, a)) && !Less(a, a)
  {
    if a != [] && b != [] {
      LessTotal(a[1..], b[1..]);
      LessTotal(a[1..], a[1..]);
      assert a == [a[0]] + a[1..] && b == [b[0]] + b[1..];
    } else if a != [] {
      LessTotal(a[1..], a[1..]);
    }
  }

  lemma {:induction false} LessTransitive(a: string, b: string, c: string)
    requires !Less(b, a) && !Less(c, b)
    ensures !Less(c, a)
  {
    if a != [] && b != [] && c != [] {
      LessTotal(a, b);
      LessTotal(b, c);
      if a[0] == b[0] == c[0] {
        LessTransitive(a[1..], b[1..], c[1..]);
      }
    }
  }

  lemma {:induction false} LessSamePrefix(p: string, a: string, b: string)
    ensures Less(p + a, p + b) == Less(a, b)
  {
    if p == [] {
      assert p + a == a && p + b == b;
    } else {
      assert (p + a)[1..] == p[1..] + a && (p + b)[1..] == p[1..] + b;
      LessSamePrefix(p[1..], a, b);
    }
  }

  /** Texts of equal length that differ decide the order of everything that follows them. */
  lemma {:induction false} LessByHead(a: string, b: string, x: string, y: string)
    requires |a| == |b| && Less(a, b)
    ensures Less(a + x, b + y) && !Less(b + y, a + x)
  {
    assert (a + x)[1..] == a[1..] + x && (b + y)[1..] == b[1..] + y;
    if a[0] == b[0] {
      LessByHead(a[1..], b[1..], x, y);
    }
  }

  // ----- Fixed-width decimal fields -----

  function Pow10(w: nat): (p: int)
    ensures p >= 1
  {
    if w == 0 then 1 else 10 * Pow10(w - 1)
  }

  /** `n` in `w` decimal digits, padded with zeros. */
  function Field(n: int, w: nat): (s: string)
    requires 0 <= n < Pow10(w)
    ensures |s| == w && forall i :: 0 <= i < w ==> '0' <= s[i] <= '9'
  {
    if w == 0 then [] else Field(n / 10, w - 1) + [Digit(n % 10)]
  }

  lemma {:induction false} FieldOrder(m: int, n: int, w: nat)
    requires 0 <= m < n < Pow10(w)
    ensures Less(Field(m, w), Field(n, w))
  {
    if m / 10 < n / 10 {
      FieldOrder(m / 10, n / 10, w - 1);
      LessByHead(Field(m / 10, w - 1), Field(n / 10, w - 1), [Digit(m % 10)], [Digit(n % 10)]);
    } else {
      assert m / 10 == n / 10 && m % 10 < n % 10;
      LessSamePrefix(Field(m / 10, w - 1), [Digit(m % 10)], [Digit(n % 10)]);
    }
  }

  /** A fixed-width field followed by more text compares like the pair (number, rest). */
  lemma {:induction false} FieldThen(m: int, n: int, w: nat, x: string, y: string)
    requires 0 <= m < Pow10(w) && 0 <= n < Pow10(w)
    ensures Less(Field(m, w) + x, Field(n, w) + y) == (m < n || (m == n && Less(x, y)))
  {
    if m < n {
      FieldOrder(m, n, w);
      LessByHead(Field(m, w), Field(n, w), x, y);
    } else if n < m {
      FieldOrder(n, m, w);
      LessByHead(Field(n, w), Field(m, w), y, x);
    } else {
      LessSamePrefix(Field(m, w), x, y);
    }
  }

  // ----- The civil calendar -----

  predicate Leap(y: int) {
    y % 4 == 0 && (y % 100 != 0 || y % 400 == 0)
  }

  function YearDays(y: int): int {
    if Leap(y) then 366 else 365
  }

  function DaysBeforeYear(y: nat): nat {
    if y == 0 then 0 else DaysBeforeYear(y - 1) + YearDays(y - 1)
  }

  function MonthDays(y: int, m: int): (d: int)
    requires 1 <= m <= 12
    ensures 28 <= d <= 31
  {
    if m == 2 then (if Leap(y) then 29 else 28)
    else if m == 4 || m == 6 || m == 9 || m == 11 then 30 else 31
  }

  function DaysBeforeMonth(y: int, m: int): (d: nat)
    requires 1 <= m <= 13
    ensures m == 13 ==> d == YearDays(y)
  {
    [0, 31, 59, 90, 120, 151, 181, 212, 243, 273, 304, 334, 365][m - 1] + if m > 2 && Leap(y) then 1 else 0
  }

  /** The year of a day and the day's number inside it. */
  function YearOf(day: nat, y: nat): (r: (nat, nat))
    requires DaysBeforeYear(y) <= day
    ensures r.0 >= y && r.1 < YearDays(r.0) && DaysBeforeYear(r.0) + r.1 == day
    decreases day - DaysBeforeYear(y)
  {
    if day < DaysBeforeYear(y + 1) then (y, day - DaysBeforeYear(y)) else YearOf(day, y + 1)
  }

  /** The month of a day of the year and the day's number inside it. */
  function MonthOf(y: nat, day: nat, m: int): (r: (int, nat))
    requires 1 <= m <= 12 && DaysBeforeMonth(y, m) <= day < YearDays(y)
    ensures m <= r.0 <= 12 && r.1 < MonthDays(y, r.0) && DaysBeforeMonth(y, r.0) + r.1 == day
    decreases 12 - m
  {
    if m == 12 || day < DaysBeforeMonth(y, m + 1)
    then (m, day - DaysBeforeMonth(y, m))
    else MonthOf(y, day, m + 1)
  }

  lemma {:induction false} YearsGrow(y: nat, z: nat)
    requires y < z
    ensures DaysBeforeYear(y) + YearDays(y) <= DaysBeforeYear(z)
  {
    if y + 1 < z { YearsGrow(y, z - 1); }
  }

  lemma {:induction false} MonthsGrow(y: int, m: int, n: int)
    requires 1 <= m < n <= 12
    ensures DaysBeforeMonth(y, m) + MonthDays(y, m) <= DaysBeforeMonth(y, n)
  {
  }

  // ----- Formatting -----

  /** Instants in the years 0000 to 9999, where the year takes four digits. */
  predicate InRange(t: int) {
    0 <= t && YearOf(t / NANOS / DAY, 0).0 <= 9999
  }

  /** A run of fixed-width fields, each followed by its separator, and then `tail`. */
  function Layout(ns: seq<int>, ws: seq<nat>, seps: seq<string>, tail: string): string
    requires |ns| == |ws| == |seps|
    requires forall i :: 0 <= i < |ns| ==> 0 <= ns[i] < Pow10(ws[i])
  {
    if ns == [] then tail else Field(ns[0], ws[0]) + (seps[0] + Layout(ns[1..], ws[1..], seps[1..], tail))
  }

  const WIDTHS: seq<nat> := [4, 2, 2, 2, 2, 2]
  const SEPARATORS: seq<string> := ["-", "-", "T", ":", ":", ""]

  /** Year, month, day, hour, minute and second of a whole second. */
  function Civil(s: nat): (f: seq<int>)
    requires YearOf(s / DAY, 0).0 <= 9999
    ensures |f| == 6 && forall i :: 0 <= i < 6 ==> 0 <= f[i] < Pow10(WIDTHS[i])
  {
    assert Pow10(4) == 10000 && Pow10(2) == 100;
    var yd, c := YearOf(s / DAY, 0), s % DAY;
    var md := MonthOf(yd.0, yd.1, 1);
    [yd.0, md.0, md.1 + 1, c / 3600, c / 60 % 60, c % 60]
  }

  /** The digits of the fraction with the trailing zeros dropped. */
  function Trim(s: string): (r: string)
    ensures |r| <= |s| && r == s[..|r|] && (forall i :: |r| <= i < |s| ==> s[i] == '0')
    ensures r != [] ==> r[|r| - 1] != '0'
  {
    if s == [] then [] else if s[|s| - 1] == '0' then Trim(s[..|s| - 1]) else s
  }

  function Fraction(t: nat): string {
    assert Pow10(9) == NANOS;
    Trim(Field(t % NANOS, 9))
  }

  /** What follows the seconds: the fraction, if any, and the UTC designator. */
  function Tail(t: nat): string {
    (if Fraction(t) == [] then "" else "." + Fraction(t)) + "Z"
  }

  /** Format(time.RFC3339Nano) of a UTC instant. */
  function Format(t: int): string
    requires InRange(t)
  {
    Layout(Civil(t / NANOS), WIDTHS, SEPARATORS, Tail(t))
  }

  // ----- Order of whole seconds -----

  /** The first field that differs decides. */
  lemma {:induction false} LayoutOrder(ms: seq<int>, ns: seq<int>, ws: seq<nat>, seps: seq<string>, x: string,
                                       y: string, k: nat)
    requires |ms| == |ns| == |ws| == |seps| && k < |ms|
    requires forall i :: 0 <= i < |ms| ==> 0 <= ms[i] < Pow10(ws[i]) && 0 <= ns[i] < Pow10(ws[i])
    requires ms[..k] == ns[..k] && ms[k] < ns[k]
    ensures Less(Layout(ms, ws, seps, x), Layout(ns, ws, seps, y))
  {
    var rx, ry := Layout(ms[1..], ws[1..], seps[1..], x), Layout(ns[1..], ws[1..], seps[1..], y);
    FieldThen(ms[0], ns[0], ws[0], seps[0] + rx, seps[0] + ry);
    if k > 0 {
      assert ms[0] == ms[..k][0] == ns[..k][0] == ns[0];
      assert ms[1..][..k - 1] == ms[..k][1..] == ns[..k][1..] == ns[1..][..k - 1];
      LayoutOrder(ms[1..], ns[1..], ws[1..], seps[1..], x, y, k - 1);
      LessSamePrefix(seps[0], rx, ry);
    }
  }

  lemma {:induction false} LayoutSame(ns: seq<int>, ws: seq<nat>, seps: seq<string>, x: string, y: string)
    requires |ns| == |ws| == |seps|
    requires forall i :: 0 <= i < |ns| ==> 0 <= ns[i] < Pow10(ws[i])
    ensures Less(Layout(ns, ws, seps, x), Layout(ns, ws, seps, y)) == Less(x, y)
  {
    if ns != [] {
      var rx, ry := Layout(ns[1..], ws[1..], seps[1..], x), Layout(ns[1..], ws[1..], seps[1..], y);
      LayoutSame(ns[1..], ws[1..], seps[1..], x, y);
      LessSamePrefix(seps[0], rx, ry);
      LessSamePrefix(Field(ns[0], ws[0]), seps[0] + rx, seps[0] + ry);
    }
  }

  /** Civil dates grow with the day. */
  lemma {:induction false} DateGrows(a: nat, b: nat)
    requires a < b
    ensures var ya, yb := YearOf(a, 0), YearOf(b, 0);
            ya.0 < yb.0 || (ya.0 == yb.0 &&
            var ma, mb := MonthOf(ya.0, ya.1, 1), MonthOf(yb.0, yb.1, 1);
            ma.0 < mb.0 || (ma.0 == mb.0 && ma.1 < mb.1))
  {
    var ya, yb := YearOf(a, 0), YearOf(b, 0);
    if yb.0 < ya.0 {
      YearsGrow(yb.0, ya.0);
    } else if ya.0 == yb.0 {
      var ma, mb := MonthOf(ya.0, ya.1, 1), MonthOf(yb.0, yb.1, 1);
      if mb.0 < ma.0 { MonthsGrow(ya.0, mb.0, ma.0); }
    }
  }

  lemma ClockGrows(a: nat, b: nat)
    requires a < b
    ensures a / 3600 < b / 3600 || (a / 3600 == b / 3600 &&
            (a / 60 % 60 < b / 60 % 60 || (a / 60 % 60 == b / 60 % 60 && a % 60 < b % 60)))
  {
    assert a / 60 / 60 == a / 3600 && b / 60 / 60 == b / 3600;
  }

  /** Of two different seconds, the earlier one has the smaller civil fields. */
  lemma CivilGrows(a: nat, b: nat) returns (k: nat)
    requires a < b && YearOf(a / DAY, 0).0 <= 9999 && YearOf(b / DAY, 0).0 <= 9999
    ensures k < 6 && Civil(a)[..k] == Civil(b)[..k] && Civil(a)[k] < Civil(b)[k]
  {
    if a / DAY < b / DAY {
      DateGrows(a / DAY, b / DAY);
    } else {
      ClockGrows(a % DAY, b % DAY);
    }
    k := FirstField(Civil(a), Civil(b));
  }

  lemma FirstField(f: seq<int>, g: seq<int>) returns (k: nat)
    requires |f| == |g| == 6
    requires f[0] < g[0] || (f[0] == g[0] && (f[1] < g[1] || (f[1] == g[1] && (f[2] < g[2] || (f[2] == g[2] &&
             (f[3] < g[3] || (f[3] == g[3] && (f[4] < g[4] || (f[4] == g[4] && f[5] < g[5])))))))))
    ensures k < 6 && f[..k] == g[..k] && f[k] < g[k]
  {
    k := if f[0] < g[0] then 0 else if f[1] < g[1] then 1 else if f[2] < g[2] then 2
         else if f[3] < g[3] then 3 else if f[4] < g[4] then 4 else 5;
  }

  // ----- Order inside one second -----

  /** Where two texts of equal length first differ. */
  lemma {:induction false} FirstDifference(a: string, b: string) returns (k: nat)
    requires |a| == |b| && Less(a, b)
    ensures k < |a| && a[..k] == b[..k] && a[k] < b[k]
  {
    if a[0] < b[0] {
      k := 0;
    } else {
      k := FirstDifference(a[1..], b[1..]);
      k := k + 1;
      assert a[..k] == [a[0]] + a[1..][..k - 1] && b[..k] == [b[0]] + b[1..][..k - 1];
    }
  }

  /** Where two trimmed fractions part: at a smaller digit, or where the smaller one ends. */
  lemma TrimmedDifference(a: string, b: string) returns (k: nat)
    requires |a| == |b| && Less(a, b)
    requires forall i :: 0 <= i < |a| ==> '0' <= a[i] <= '9' && '0' <= b[i] <= '9'
    ensures k <= |Trim(a)| && k < |Trim(b)| && Trim(a)[..k] == Trim(b)[..k]
    ensures '0' <= Trim(b)[k] <= '9'
    ensures k < |Trim(a)| ==> '0' <= Trim(a)[k] < Trim(b)[k]
  {
    var p, q := Trim(a), Trim(b);
    k := FirstDifference(a, b);
    assert k < |q| && q[k] == b[k];
    if k < |p| {
      assert p[..k] == a[..k] && q[..k] == b[..k];
    } else {
      assert p == a[..k][..|p|] == b[..k][..|p|] == q[..|p|];
      k := |p|;
      assert q[k] == b[k];
    }
  }

  /**
    Fractions written without trailing zeros: the smaller one sorts first unless it is a proper
    prefix of the larger one, because the closing Z sorts after every digit.
   */
  lemma {:induction false} TrimmedOrder(p: string, q: string, k: nat)
    requires k <= |p| && k < |q| && p[..k] == q[..k]
    requires '0' <= q[k] <= '9' && (k < |p| ==> '0' <= p[k] < q[k])
    ensures !(q <= p) && (p < q <==> k == |p|)
    ensures Less(p + "Z", q + "Z") <==> !(p < q)
    ensures Less(q + "Z", p + "Z") <==> p < q
  {
    LessTotal(p + "Z", q + "Z");
    if k < |p| {
      DigitsThenZ(p, q, k);
    } else {
      assert p == p[..k] == q[..k];
      DigitsThenZ(q, p, k);
    }
  }

  /**
    Two digit texts closed by Z, equal up to place `k` where the first has a digit that is smaller, or the
    second ends.
   */
  lemma {:induction false} DigitsThenZ(p: string, q: string, k: nat)
    requires k < |p| && k <= |q| && p[..k] == q[..k]
    requires '0' <= p[k] <= '9' && (k < |q| ==> p[k] < q[k])
    ensures Less(p + "Z", q + "Z")
  {
    assert (p + "Z")[..k] == p[..k] && (q + "Z")[..k] == q[..k];
    LessByWitness(p + "Z", q + "Z", k);
  }

  lemma {:induction false} LessByWitness(a: string, b: string, k: nat)
    requires k < |a| && k < |b| && a[..k] == b[..k] && a[k] < b[k]
    ensures Less(a, b)
  {
    assert a == a[..k] + a[k..] && b == a[..k] + b[k..];
    LessSamePrefix(a[..k], a[k..], b[k..]);
  }

  lemma TailOrder(a: nat, b: nat)
    requires a % NANOS < b % NANOS
    ensures !(Fraction(b) <= Fraction(a))
    ensures Less(Tail(a), Tail(b)) <==> !(Fraction(a) < Fraction(b))
    ensures Less(Tail(b), Tail(a)) <==> Fraction(a) < Fraction(b)
  {
    assert Pow10(9) == NANOS;
    FieldOrder(a % NANOS, b % NANOS, 9);
    var k := TrimmedDifference(Field(a % NANOS, 9), Field(b % NANOS, 9));
    PointThenDigits(Fraction(a), Fraction(b), k);
  }

  lemma PointThenDigits(p: string, q: string, k: nat)
    requires k <= |p| && k < |q| && p[..k] == q[..k]
    requires '0' <= q[k] <= '9' && (k < |p| ==> '0' <= p[k] < q[k])
    ensures var x, y := (if p == [] then "" else "." + p) + "Z", (if q == [] then "" else "." + q) + "Z";
            !(q <= p) && (Less(x, y) <==> !(p < q)) && (Less(y, x) <==> p < q)
  {
    TrimmedOrder(p, q, k);
    assert "." + q + "Z" == "." + (q + "Z");
    if p != [] {
      assert "." + p + "Z" == "." + (p + "Z");
      LessSamePrefix(".", p + "Z", q + "Z");
      LessSamePrefix(".", q + "Z", p + "Z");
    }
  }

  // ----- The comparison the store makes -----

  /** The fractions of two instants of one second, one a proper prefix of the other as texts. */
  predicate Misordered(a: int, b: int)
    requires a >= 0 && b >= 0
  {
    a / NANOS == b / NANOS && (Fraction(a) < Fraction(b) || Fraction(b) < Fraction(a))
  }

  /** Comparing the texts agrees with comparing the instants exactly when the fractions are not nested prefixes. */
  lemma TextOrder(a: int, b: int)
    requires InRange(a) && InRange(b)
    ensures (Less(Format(a), Format(b)) <==> a < b) <==> !Misordered(a, b)
    ensures a / NANOS < b / NANOS ==> Less(Format(a), Format(b)) && !Less(Format(b), Format(a))
  {
    var f, g := Civil(a / NANOS), Civil(b / NANOS);
    if a / NANOS < b / NANOS {
      var k := CivilGrows(a / NANOS, b / NANOS);
      LayoutOrder(f, g, WIDTHS, SEPARATORS, Tail(a), Tail(b), k);
      LessTotal(Format(a), Format(b));
    } else if b / NANOS < a / NANOS {
      var k := CivilGrows(b / NANOS, a / NANOS);
      LayoutOrder(g, f, WIDTHS, SEPARATORS, Tail(b), Tail(a), k);
      LessTotal(Format(a), Format(b));
    } else {
      LayoutSame(f, WIDTHS, SEPARATORS, Tail(a), Tail(b));
      SameSecondOrder(a, b);
    }
  }

  lemma SameSecondOrder(a: nat, b: nat)
    requires a / NANOS == b / NANOS
    ensures (Less(Tail(a), Tail(b)) <==> a < b) <==> !Misordered(a, b)
  {
    if a < b {
      TailOrder(a, b);
    } else if b < a {
      TailOrder(b, a);
    } else {
      LessTotal(Tail(a), Tail(b));
    }
  }

  /** With fractions of equal width the comparison is exact, as section 5.1 of RFC 3339 promises. */
  lemma EqualWidthsExact(a: int, b: int)
    requires InRange(a) && InRange(b) && |Fraction(a)| == |Fraction(b)|
    ensures Less(Format(a), Format(b)) <==> a < b
  {
    TextOrder(a, b);
  }

  /**
    `expires_at > now` on the texts errs by less than a second: a row is never live a second
    or more after its expiry, and always live when at least a second remains.
   */
  lemma ExpiryWithinASecond(expires: int, now: int)
    requires InRange(expires) && InRange(now)
    ensures Less(Format(now), Format(expires)) ==> now < expires + NANOS
    ensures now + NANOS <= expires ==> Less(Format(now), Format(expires))
  {
    TextOrder(now, expires);
    TextOrder(expires, now);
  }

  /** Every whole-second expiry is still accepted throughout the second that follows it. */
  lemma WholeSecondExpiryIsLate(expires: int, now: int)
    requires InRange(expires) && InRange(now)
    requires expires % NANOS == 0 && expires < now < expires + NANOS
    ensures Less(Format(now), Format(expires))
  {
    ZeroFraction(expires);
    TailOrder(expires, now);
    TextOrder(now, expires);
  }

  lemma ZeroFraction(t: nat)
    requires t % NANOS == 0
    ensures Fraction(t) == []
  {
    assert Pow10(9) == NANOS;
    ZeroField(9);
    var s := Field(t % NANOS, 9);
    assert Fraction(t) == s[..|Fraction(t)|];
  }

  lemma {:induction false} ZeroField(w: nat)
    ensures 0 < Pow10(w) && forall i :: 0 <= i < w ==> Field(0, w)[i] == '0'
  {
    if w > 0 { ZeroField(w - 1); }
  }
}
