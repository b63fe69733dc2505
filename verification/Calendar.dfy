/** `format_timestamp`: the closed-form civil-from-days arithmetic against a calendar that
    simply counts days, and the order of the printed names against the order of time. */
module Calendar {
  import opened Text

  const SECS_PER_DAY: nat := 86_400

  datatype Date = Date(year: nat, month: nat, day: nat)

  // ----- the calendar, counted day by day -----

  predicate IsLeap(y: nat) { y % 4 == 0 && (y % 100 != 0 || y % 400 == 0) }

  function MonthLength(y: nat, m: nat): (n: nat)
    requires 1 <= m <= 12
  {
    if m == 2 then (if IsLeap(y) then 29 else 28)
    else if m == 4 || m == 6 || m == 9 || m == 11 then 30
    else 31
  }

  predicate IsDate(d: Date) {
    1 <= d.month <= 12 && 1 <= d.day <= MonthLength(d.year, d.month)
  }

  function Tomorrow(d: Date): (r: Date)
    requires IsDate(d)
    ensures IsDate(r) && DateBefore(d, r)
  {
    if d.day < MonthLength(d.year, d.month) then d.(day := d.day + 1)
    else if d.month < 12 then Date(d.year, d.month + 1, 1)
    else Date(d.year + 1, 1, 1)
  }

  function Counted(n: nat): (d: Date)
    ensures IsDate(d)
  {
    if n == 0 then Date(1970, 1, 1) else Tomorrow(Counted(n - 1))
  }

  predicate DateBefore(a: Date, b: Date) {
    a.year < b.year || (a.year == b.year && (a.month < b.month || (a.month == b.month && a.day < b.day)))
  }

  // ----- the closed form -----

  /** Year of a 400-year era, March-based, that holds day `doe`. Each partial result is a
      natural number, so the unsigned subtractions of the source never wrap. */
  function YearOfEra(doe: nat): nat {
    var a: nat := doe - doe / 1460;
    var b: nat := a + doe / 36_524 - doe / 146_096;
    b / 365
  }

  /** Days of the era that lie before its March-based year `yoe`. */
  function YearStart(yoe: nat): nat { 365 * yoe + yoe / 4 - yoe / 100 }

  function Civil(days: nat): Date {
    var z := days + 719_468;
    var era := z / 146_097;
    var doe := z - era * 146_097;
    var yoe := YearOfEra(doe);
    YearOfEraFinds(doe);
    FromMarch(yoe + era * 400, doe - YearStart(yoe))
  }

  /** Date of day `doy` of the March-based year y. */
  function FromMarch(y: nat, doy: nat): Date {
    var mp := (5 * doy + 2) / 153;
    var d: nat := doy - (153 * mp + 2) / 5 + 1;
    var mo := if mp < 10 then mp + 3 else mp - 9;
    Date(if mo <= 2 then y + 1 else y, mo, d)
  }

  /** Length of a March-based year: its February lies in the next calendar year. */
  function YearLength(y: nat): nat { if IsLeap(y + 1) then 366 else 365 }

  /** A day written as centuries, four-year cycles, years and a remainder: every quotient of
      the closed form is then explicit. */
  lemma YearOfEraSplit(a: nat, b: nat, e: nat, t: nat)
    requires a <= 3 && b <= 24 && e <= 3
    requires t <= 364 || (t == 365 && e == 3 && (b < 24 || a == 3))
    ensures YearOfEra(36_524 * a + 1461 * b + 365 * e + t) == 100 * a + 4 * b + e
    ensures YearStart(100 * a + 4 * b + e) == 36_524 * a + 1461 * b + 365 * e
  {
    var doe := 36_524 * a + 1461 * b + 365 * e + t;
    var y := 100 * a + 4 * b + e;
    var more := 24 * a + b + 365 * e + t >= 1460;
    assert doe / 1460 == 25 * a + b + (if more then 1 else 0);
    var last := 1461 * b + 365 * e + t >= 36_524;
    assert doe / 36_524 == a + (if last then 1 else 0);
    assert doe / 146_096 == if last then 1 else 0;
    assert y / 4 == 25 * a + b && y / 100 == a;
  }

  /** Every day of an era can be written that way. */
  lemma DayOfEra(doe: nat) returns (a: nat, b: nat, e: nat, t: nat)
    requires doe < 146_097
    ensures a <= 3 && b <= 24 && e <= 3 && (t <= 364 || (t == 365 && e == 3 && (b < 24 || a == 3)))
    ensures doe == 36_524 * a + 1461 * b + 365 * e + t
  {
    a := if doe / 36_524 < 3 then doe / 36_524 else 3;
    var r := doe - 36_524 * a;
    b := if r / 1461 < 24 then r / 1461 else 24;
    var u := r - 1461 * b;
    e := if u / 365 < 3 then u / 365 else 3;
    t := u - 365 * e;
  }

  lemma LeapYearOfEra(a: nat, b: nat, e: nat)
    requires a <= 3 && b <= 24 && e <= 3
    ensures YearLength(100 * a + 4 * b + e) == if e == 3 && (b < 24 || a == 3) then 366 else 365
  {
    var y := 100 * a + 4 * b + e + 1;
    assert y % 4 == (e + 1) % 4;
    if e == 3 { assert y == 100 * a + 4 * (b + 1); }
  }

  /** The closed form finds the year that contains the day. */
  lemma YearOfEraFinds(doe: nat)
    requires doe < 146_097
    ensures YearOfEra(doe) < 400
    ensures YearStart(YearOfEra(doe)) <= doe < YearStart(YearOfEra(doe)) + YearLength(YearOfEra(doe))
  {
    hide YearOfEra, YearStart, YearLength;
    var a, b, e, t := DayOfEra(doe);
    YearOfEraSplit(a, b, e, t);
    LeapYearOfEra(a, b, e);
  }

  /** The years of an era tile its days. */
  lemma YearsTile(y: nat, y': nat)
    requires y < y' < 400
    ensures YearStart(y) + YearLength(y) <= YearStart(y')
    ensures y' == y + 1 ==> YearStart(y) + YearLength(y) == YearStart(y')
  {
  }

  // ----- the closed form counts days -----

  /** First day of a March-based month within its year. */
  function MonthStart(mp: nat): nat { (153 * mp + 2) / 5 }

  lemma MonthFinds(y: nat, mp: nat, k: nat)
    requires mp <= 11 && MonthStart(mp) + k < MonthStart(mp + 1)
    ensures FromMarch(y, MonthStart(mp) + k) ==
            if mp < 10 then Date(y, mp + 3, k + 1) else Date(y + 1, mp - 9, k + 1)
  {
    assert (5 * (MonthStart(mp) + k) + 2) / 153 == mp;
  }

  lemma MonthOf(doy: nat) returns (mp: nat, k: nat)
    requires doy < 366
    ensures mp <= 11 && doy == MonthStart(mp) + k && doy < MonthStart(mp + 1)
  {
    mp := (5 * doy + 2) / 153;
    k := doy - MonthStart(mp);
  }

  lemma FromMarchSteps(y: nat, doy: nat)
    requires doy < YearLength(y)
    ensures IsDate(FromMarch(y, doy))
    ensures doy + 1 < YearLength(y) ==> FromMarch(y, doy + 1) == Tomorrow(FromMarch(y, doy))
    ensures doy + 1 == YearLength(y) ==> FromMarch(y + 1, 0) == Tomorrow(FromMarch(y, doy))
  {
    hide FromMarch;
    var mp, k := MonthOf(doy);
    MonthFinds(y, mp, k);
    if doy + 1 < MonthStart(mp + 1) { MonthFinds(y, mp, k + 1); } else if mp < 11 { MonthFinds(y, mp + 1, 0); }
    MonthFinds(y + 1, 0, 0);
  }

  lemma LeapYearsRepeat(y: nat, era: nat)
    ensures YearLength(y + era * 400) == YearLength(y)
  {
    var x, z := y + 1, y + 1 + era * 400;
    assert z == x + 400 * era == x + 100 * (4 * era) == x + 4 * (100 * era);
    Cycle400(x, era);
    Cycle100(x, 4 * era);
    Cycle4(x, 100 * era);
  }

  lemma Cycle400(x: nat, k: nat) ensures (x + 400 * k) % 400 == x % 400 {}
  lemma Cycle100(x: nat, k: nat) ensures (x + 100 * k) % 100 == x % 100 {}
  lemma Cycle4(x: nat, k: nat) ensures (x + 4 * k) % 4 == x % 4 {}

  /** The date of a day given by its era and its day of the era. */
  function EraDate(era: nat, doe: nat): Date
    requires doe < 146_097
  {
    YearOfEraFinds(doe);
    FromMarch(YearOfEra(doe) + era * 400, doe - YearStart(YearOfEra(doe)))
  }

  lemma CivilByEra(n: nat, era: nat, doe: nat)
    requires doe < 146_097 && n + 719_468 == era * 146_097 + doe
    ensures Civil(n) == EraDate(era, doe)
  {
    assert (n + 719_468) / 146_097 == era;
  }

  lemma YearBounds(y: nat, doy: nat)
    requires y < 400 && doy < YearLength(y)
    ensures YearStart(y) + doy < 146_097
    ensures YearOfEra(YearStart(y) + doy) == y
  {
    hide YearOfEra;
    var doe := YearStart(y) + doy;
    LastYear(y);
    YearOfEraFinds(doe);
    var y' := YearOfEra(doe);
    if y < y' { YearsTile(y, y'); }
    if y' < y { YearsTile(y', y); }
  }

  lemma LastYear(y: nat)
    requires y < 400
    ensures YearStart(y) + YearLength(y) <= 146_097
    ensures YearStart(y) + YearLength(y) == if y == 399 then 146_097 else YearStart(y + 1)
  {
    assert YearStart(399) == 145_731;
    if y < 399 { YearsTile(y, 399); YearsTile(y, y + 1); }
  }

  lemma EraDateAt(era: nat, y: nat, doy: nat)
    requires y < 400 && doy < YearLength(y)
    ensures YearStart(y) + doy < 146_097
    ensures EraDate(era, YearStart(y) + doy) == FromMarch(y + era * 400, doy)
  {
    hide YearOfEra, YearStart, YearLength, FromMarch;
    YearBounds(y, doy);
  }

  /** The day after a day of the era, across the ends of months, years and eras. */
  lemma EraDateSteps(era: nat, y: nat, doy: nat)
    requires y < 400 && doy < YearLength(y)
    ensures YearStart(y) + doy < 146_097
    ensures IsDate(EraDate(era, YearStart(y) + doy))
    ensures Tomorrow(EraDate(era, YearStart(y) + doy)) ==
            if YearStart(y) + doy + 1 < 146_097 then EraDate(era, YearStart(y) + doy + 1) else EraDate(era + 1, 0)
  {
    hide YearOfEra, YearStart, YearLength, FromMarch, EraDate, Tomorrow, IsDate;
    EraDateAt(era, y, doy);
    LeapYearsRepeat(y, era);
    FromMarchSteps(y + era * 400, doy);
    LastYear(y);
    if doy + 1 < YearLength(y) {
      EraDateAt(era, y, doy + 1);
    } else {
      EraStart();
      EraDateAt(if y < 399 then era else era + 1, if y < 399 then y + 1 else 0, 0);
    }
  }

  lemma EraStart()
    ensures YearStart(0) == 0 && forall y :: YearLength(y) >= 365
  {
  }

  lemma YearAndDay(doe: nat) returns (y: nat, doy: nat)
    requires doe < 146_097
    ensures y < 400 && doy < YearLength(y) && doe == YearStart(y) + doy
  {
    hide YearOfEra, YearStart, YearLength;
    YearOfEraFinds(doe);
    y := YearOfEra(doe);
    doy := doe - YearStart(y);
  }

  /** The closed form moves one calendar day per day. */
  lemma CivilSteps(n: nat)
    ensures IsDate(Civil(n)) && Civil(n + 1) == Tomorrow(Civil(n))
  {
    hide *;
    var era := (n + 719_468) / 146_097;
    var doe := (n + 719_468) % 146_097;
    CivilByEra(n, era, doe);
    if doe + 1 < 146_097 { CivilByEra(n + 1, era, doe + 1); } else { CivilByEra(n + 1, era + 1, 0); }
    var y, doy := YearAndDay(doe);
    EraDateSteps(era, y, doy);
  }

  lemma EpochDay()
    ensures Civil(0) == Date(1970, 1, 1)
  {
    CivilByEra(0, 4, 135_080);
    YearOfEraSplit(3, 17, 1, 306);
  }

  /** The closed form is day-by-day counting from 1970-01-01. */
  lemma {:induction false} CivilCountsDays(n: nat)
    ensures Civil(n) == Counted(n)
  {
    hide Civil;
    if n == 0 {
      EpochDay();
    } else {
      CivilCountsDays(n - 1);
      CivilSteps(n - 1);
    }
  }

  lemma {:induction false} CountedAdvances(m: nat, n: nat)
    requires m < n
    ensures DateBefore(Counted(m), Counted(n))
  {
    if m < n - 1 { CountedAdvances(m, n - 1); }
  }

  // ----- the printed name -----

  /** `{n:0w}`: decimal, padded on the left with zeros to at least w digits. */
  function Pad(w: nat, n: nat): string {
    var d := Dec(n);
    seq(if |d| < w then w - |d| else 0, _ => '0') + d
  }

  function FormatTimestamp(secs: nat): string {
    var rem := secs % SECS_PER_DAY;
    var date := Civil(secs / SECS_PER_DAY);
    Pad(4, date.year) + Pad(2, date.month) + Pad(2, date.day)
    + ("-" + (Pad(2, rem / 3600) + Pad(2, rem % 3600 / 60) + Pad(2, rem % 60)))
  }

  /** Strict lexicographic order of strings. */
  predicate Precedes(a: string, b: string) {
    b != "" && (a == "" || a[0] < b[0] || (a[0] == b[0] && Precedes(a[1..], b[1..])))
  }

  lemma {:induction false} PrecedesIsIrreflexive(a: string)
    ensures !Precedes(a, a)
  {
    if a != "" { PrecedesIsIrreflexive(a[1..]); }
  }

  lemma {:induction false} PrecedesConcat(a: string, b: string, c: string, d: string)
    requires |a| == |c|
    ensures Precedes(a + b, c + d) <==> Precedes(a, c) || (a == c && Precedes(b, d))
  {
    if a == "" {
      assert a + b == b && c + d == d;
    } else {
      assert (a + b)[1..] == a[1..] + b && (c + d)[1..] == c[1..] + d;
      assert a == c <==> a[0] == c[0] && a[1..] == c[1..];
      PrecedesConcat(a[1..], b, c[1..], d);
      if a[0] == c[0] && !Precedes(a[1..], c[1..]) && a[1..] == c[1..] {
        assert a == [a[0]] + a[1..] && c == [c[0]] + c[1..];
      }
    }
  }

  function Pow10(w: nat): nat { if w == 0 then 1 else 10 * Pow10(w - 1) }

  /** Zero-padded numbers of one width: same length, and their order is the numbers' order. */
  lemma {:induction false} PadLength(w: nat, n: nat)
    requires w > 0 && n < Pow10(w)
    ensures |Pad(w, n)| == w
    ensures w > 1 ==> Pad(w, n) == Pad(w - 1, n / 10) + [DigitChar(n % 10)]
  {
    if w > 1 {
      PadLength(w - 1, n / 10);
      if n >= 10 {
        assert Dec(n) == Dec(n / 10) + [DigitChar(n % 10)];
      } else {
        assert Dec(n / 10) == "0";
        assert Pad(w - 1, 0) == seq(w - 1, _ => '0');
      }
    }
  }

  lemma OneDigitOrder(m: nat, n: nat)
    requires m < 10 && n < 10
    ensures Precedes([DigitChar(m)], [DigitChar(n)]) <==> m < n
    ensures [DigitChar(m)] == [DigitChar(n)] <==> m == n
  {
    assert [DigitChar(m)] == [DigitChar(n)] <==> DigitChar(m) == DigitChar(n);
  }

  lemma {:induction false} PadOrder(w: nat, m: nat, n: nat)
    requires w > 0 && m < Pow10(w) && n < Pow10(w)
    ensures Precedes(Pad(w, m), Pad(w, n)) <==> m < n
    ensures Pad(w, m) == Pad(w, n) <==> m == n
  {
    hide Precedes;
    PadLength(w, m);
    PadLength(w, n);
    if w == 1 {
      assert Pad(1, m) == [DigitChar(m)] && Pad(1, n) == [DigitChar(n)];
      OneDigitOrder(m, n);
    } else {
      PadOrder(w - 1, m / 10, n / 10);
      PadLength(w - 1, m / 10);
      PadLength(w - 1, n / 10);
      var a, b := Pad(w - 1, m / 10), [DigitChar(m % 10)];
      var c, d := Pad(w - 1, n / 10), [DigitChar(n % 10)];
      PrecedesConcat(a, b, c, d);
      OneDigitOrder(m % 10, n % 10);
      assert a + b == c + d <==> a == c && b == d by {
        assert (a + b)[..w - 1] == a && (c + d)[..w - 1] == c;
        assert (a + b)[w - 1..] == b && (c + d)[w - 1..] == d;
      }
      assert m == 10 * (m / 10) + m % 10 && n == 10 * (n / 10) + n % 10;
    }
  }

  /** Three padded fields in a row order like the triple. */
  lemma FieldsOrder(w: nat, a: nat, b: nat, c: nat, a': nat, b': nat, c': nat)
    requires w > 0 && a < Pow10(w) && a' < Pow10(w)
    requires b < 100 && b' < 100 && c < 100 && c' < 100
    ensures var x, y := Pad(w, a) + Pad(2, b) + Pad(2, c), Pad(w, a') + Pad(2, b') + Pad(2, c');
         && |x| == |y| == w + 4
         && (Precedes(x, y) <==> a < a' || (a == a' && (b < b' || (b == b' && c < c'))))
         && (x == y <==> a == a' && b == b' && c == c')
  {
    assert Pow10(2) == 100;
    PadOrder(w, a, a'); PadOrder(2, b, b'); PadOrder(2, c, c');
    PadLength(w, a); PadLength(w, a'); PadLength(2, b); PadLength(2, b'); PadLength(2, c); PadLength(2, c');
    var p, q, r := Pad(w, a), Pad(2, b), Pad(2, c);
    var p', q', r' := Pad(w, a'), Pad(2, b'), Pad(2, c');
    PrecedesConcat(p, q, p', q');
    PrecedesConcat(p + q, r, p' + q', r');
    assert p + q == p' + q' <==> p == p' && q == q' by {
      assert (p + q)[..w] == p && (p' + q')[..w] == p' && (p + q)[w..] == q && (p' + q')[w..] == q';
    }
    assert p + q + r == p' + q' + r' <==> p + q == p' + q' && r == r' by {
      assert (p + q + r)[..w + 2] == p + q && (p' + q' + r')[..w + 2] == p' + q';
      assert (p + q + r)[w + 2..] == r && (p' + q' + r')[w + 2..] == r';
    }
  }

  // ----- what the printed name says -----

  lemma PadReads(w: nat, n: nat)
    ensures |Pad(w, n)| >= w && AllDigits(Pad(w, n)) && DecVal(Pad(w, n)) == n
  {
    var d := Dec(n);
    LeadingZeros(seq(if |d| < w then w - |d| else 0, _ => '0'), d);
    DecRoundTrip(n);
  }

  /** The digits from i to j are those of n. */
  ghost predicate Says(text: string, i: nat, j: nat, n: nat) {
    i <= j <= |text| && AllDigits(text[i..j]) && DecVal(text[i..j]) == n
  }

  lemma SaysInside(before: string, x: string, after: string, i: nat, j: nat, n: nat)
    requires Says(x, i, j, n)
    ensures Says(before + x + after, |before| + i, |before| + j, n)
  {
    hide AllDigits, DecVal;
    assert (before + x + after)[|before| + i..|before| + j] == x[i..j];
  }

  lemma ThreeSay(a: string, b: string, c: string)
    requires AllDigits(a) && AllDigits(b) && AllDigits(c)
    ensures var x := a + b + c; var i, j := |a|, |a| + |b|;
      Says(x, 0, i, DecVal(a)) && Says(x, i, j, DecVal(b)) && Says(x, j, |x|, DecVal(c))
  {
    hide AllDigits, DecVal;
    var x := a + b + c;
    assert x[0..|a|] == a && x[|a|..|a| + |b|] == b && x[|a| + |b|..|x|] == c;
  }

  /** Date and clock, with a dash in between. */
  function Dashed(x: string, z: string): string { x + ("-" + z) }

  lemma DashedSays(x: string, z: string, i: nat, j: nat, n: nat)
    ensures Says(x, i, j, n) ==> Says(Dashed(x, z), i, j, n)
    ensures Says(z, i, j, n) ==> Says(Dashed(x, z), |x| + 1 + i, |x| + 1 + j, n)
    ensures |Dashed(x, z)| == |x| + 1 + |z| && Dashed(x, z)[|x|] == '-'
  {
    hide Says;
    if Says(x, i, j, n) {
      SaysInside("", x, "-" + z, i, j, n);
      assert "" + x + ("-" + z) == Dashed(x, z);
    }
    if Says(z, i, j, n) {
      SaysInside(x + "-", z, "", i, j, n);
      assert (x + "-") + z + "" == Dashed(x, z);
    }
  }

  lemma FieldsSay(x: string, z: string, y: nat, mo: nat, d: nat, h: nat, mi: nat, s: nat)
    requires |x| >= 4 && |z| == 6
    requires var w := |x| - 4; Says(x, 0, w, y) && Says(x, w, w + 2, mo) && Says(x, w + 2, w + 4, d)
    requires Says(z, 0, 2, h) && Says(z, 2, 4, mi) && Says(z, 4, 6, s)
    ensures var text := Dashed(x, z); var w := |x| - 4;
      && |text| == w + 11 && text[w + 4] == '-'
      && Says(text, 0, w, y) && Says(text, w, w + 2, mo) && Says(text, w + 2, w + 4, d)
      && Says(text, w + 5, w + 7, h) && Says(text, w + 7, w + 9, mi) && Says(text, w + 9, w + 11, s)
  {
    hide Says, Dashed;
    var w := |x| - 4;
    DashedSays(x, z, 0, w, y);
    DashedSays(x, z, w, w + 2, mo);
    DashedSays(x, z, w + 2, w + 4, d);
    DashedSays(x, z, 0, 2, h);
    DashedSays(x, z, 2, 4, mi);
    DashedSays(x, z, 4, 6, s);
  }

  /** The fields of a day's clock. */
  lemma ClockFields(rem: nat) returns (h: nat, m: nat, s: nat)
    requires rem < 86_400
    ensures h < 24 && m < 60 && s < 60 && 3600 * h + 60 * m + s == rem
    ensures h == rem / 3600 && m == rem % 3600 / 60 && s == rem % 60
  {
    h, m, s := rem / 3600, rem % 3600 / 60, rem % 60;
    assert rem % 60 == rem % 3600 % 60;
  }

  /** Read back digit by digit, the name is the calendar date, counted day by day, and the
      time of day: four digits of year up to 9999, as many as it takes behind. */
  lemma NameSaysWhen(secs: nat) returns (w: nat, h: nat, m: nat, s: nat)
    ensures var text := FormatTimestamp(secs); var date := Counted(secs / 86_400);
      && |text| == w + 11 && w >= 4 && (secs < 253_402_300_800 ==> w == 4) && text[w + 4] == '-'
      && Says(text, 0, w, date.year) && Says(text, w, w + 2, date.month) && Says(text, w + 2, w + 4, date.day)
      && Says(text, w + 5, w + 7, h) && Says(text, w + 7, w + 9, m) && Says(text, w + 9, w + 11, s)
      && h < 24 && m < 60 && s < 60 && 3600 * h + 60 * m + s == secs % 86_400
  {
    hide Counted, Civil, Pad, Says, DecVal, AllDigits, YearLength, YearOfEra;
    var n := secs / SECS_PER_DAY;
    var date := Counted(n);
    CivilCountsDays(n);
    YearRange(n);
    h, m, s := ClockFields(secs % SECS_PER_DAY);
    assert Pow10(4) == 10_000 && Pow10(2) == 100;
    if date.year < 10_000 { PadLength(4, date.year); }
    PadLength(2, date.month); PadLength(2, date.day);
    PadLength(2, h); PadLength(2, m); PadLength(2, s);
    PadReads(4, date.year); PadReads(2, date.month); PadReads(2, date.day);
    PadReads(2, h); PadReads(2, m); PadReads(2, s);
    ThreeSay(Pad(4, date.year), Pad(2, date.month), Pad(2, date.day));
    ThreeSay(Pad(2, h), Pad(2, m), Pad(2, s));
    w := |Pad(4, date.year)|;
    FieldsSay(Pad(4, date.year) + Pad(2, date.month) + Pad(2, date.day), Pad(2, h) + Pad(2, m) + Pad(2, s),
              date.year, date.month, date.day, h, m, s);
  }

  // ----- names sort in time order -----

  /** 10000-01-01 00:00:00 UTC. */
  const LIMIT: nat := 253_402_300_800

  lemma YearRange(n: nat)
    ensures Counted(n).year >= 1970
    ensures Counted(n).year <= 9999 <==> n < LIMIT / SECS_PER_DAY
  {
    hide Counted;
    LastDayOf9999();
    CivilCountsDays(0); EpochDay();
    if n > 0 { CountedAdvances(0, n); }
    if n < 2_932_896 { CountedAdvances(n, 2_932_896); }
    if n > 2_932_897 { CountedAdvances(2_932_897, n); }
  }

  lemma LastDayOf9999()
    ensures Counted(2_932_896) == Date(9999, 12, 31)
    ensures Counted(2_932_897) == Date(10_000, 1, 1)
  {
    CivilByEra(2_932_896, 24, 146_036);
    YearOfEraSplit(3, 24, 3, 305);
    NameLastDay();
    hide Civil, YearOfEra;
    CivilCountsDays(2_932_896);
  }

  lemma NameLastDay()
    ensures FromMarch(9999, 305) == Date(9999, 12, 31)
  {
  }

  /** Up to year 9999 the printed names sort exactly as the times they name. */
  lemma NamesSortByTime(s: nat, t: nat)
    requires s < LIMIT && t < LIMIT
    ensures Precedes(FormatTimestamp(s), FormatTimestamp(t)) <==> s < t
  {
    hide Counted, Civil, Pad, Precedes;
    var m, n := s / SECS_PER_DAY, t / SECS_PER_DAY;
    var a, b := Counted(m), Counted(n);
    CivilCountsDays(m); CivilCountsDays(n);
    YearRange(m); YearRange(n);
    assert Pow10(4) == 10_000 && Pow10(2) == 100;
    FieldsOrder(4, a.year, a.month, a.day, b.year, b.month, b.day);
    var u, v := s % SECS_PER_DAY, t % SECS_PER_DAY;
    FieldsOrder(2, u / 3600, u % 3600 / 60, u % 60, v / 3600, v % 3600 / 60, v % 60);
    var x, y := Pad(4, a.year) + Pad(2, a.month) + Pad(2, a.day), Pad(4, b.year) + Pad(2, b.month) + Pad(2, b.day);
    var x', y' := Pad(2, u / 3600) + Pad(2, u % 3600 / 60) + Pad(2, u % 60), Pad(2, v / 3600) + Pad(2, v % 3600 / 60) + Pad(2, v % 60);
    PrecedesConcat(x, "-" + x', y, "-" + y');
    DashOrder(x', y');
    if m < n { CountedAdvances(m, n); }
    if n < m { CountedAdvances(n, m); }
    ClockOrder(u, v);
  }

  lemma DashOrder(x: string, y: string)
    ensures Precedes("-" + x, "-" + y) <==> Precedes(x, y)
  {
    assert ("-" + x)[1..] == x && ("-" + y)[1..] == y;
  }

  lemma ClockOrder(u: nat, v: nat)
    requires u < SECS_PER_DAY && v < SECS_PER_DAY
    ensures u < v <==>
            (|| u / 3600 < v / 3600
             || (u / 3600 == v / 3600 && u % 3600 / 60 < v % 3600 / 60)
             || (u / 3600 == v / 3600 && u % 3600 / 60 == v % 3600 / 60 && u % 60 < v % 60))
  {
    assert u % 60 == u % 3600 % 60 && v % 60 == v % 3600 % 60;
  }

  /** The order is exact precisely up to year 9999: one second later it fails. */
  lemma SortingHoldsExactlyTo(bound: nat)
    ensures bound <= LIMIT
       <==> forall s: nat, t: nat :: s < bound && t < bound ==>
              (Precedes(FormatTimestamp(s), FormatTimestamp(t)) <==> s < t)
  {
    if bound <= LIMIT {
      forall s: nat, t: nat | s < bound && t < bound
        ensures Precedes(FormatTimestamp(s), FormatTimestamp(t)) <==> s < t
      {
        NamesSortByTime(s, t);
      }
    } else {
      FiveDigitYears();
    }
  }

  lemma FiveDigitYears()
    ensures Precedes(FormatTimestamp(LIMIT), FormatTimestamp(LIMIT - 1))
  {
    hide Civil, Counted, Precedes, Dec;
    LastDayOf9999();
    CivilCountsDays(2_932_896); CivilCountsDays(2_932_897);
    TenThousand();
    OneBeforeNine(FormatTimestamp(LIMIT), FormatTimestamp(LIMIT - 1));
  }

  lemma TenThousand()
    ensures |Pad(4, 10_000)| > 0 && Pad(4, 10_000)[0] == '1'
    ensures |Pad(4, 9999)| > 0 && Pad(4, 9999)[0] == '9'
  {
    assert Dec(1000) == Dec(100) + "0" && Dec(10_000) == Dec(1000) + "0";
    assert Dec(999) == Dec(99) + "9" && Dec(9999) == Dec(999) + "9";
  }

  lemma OneBeforeNine(x: string, y: string)
    requires x != "" && y != "" && x[0] < y[0]
    ensures Precedes(x, y)
  {
  }
}
