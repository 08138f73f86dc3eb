/** The text `chrono_now` of `src/util.rs` makes of a time: an RFC 3339 date-time in UTC. */
module Timestamp {
  import opened Common
  import opened Calendar

  const SECS_PER_DAY: nat := 86400

  function Digit(n: nat): char
    requires n < 10
  {
    '0' + n as char
  }

  /** Decimal digits, padded with zeros to at least `width`. */
  function Decimal(n: nat, width: nat): string
    decreases n, width
  {
    if n < 10 && width <= 1 then [Digit(n)]
    else Decimal(n / 10, if width == 0 then 0 else width - 1) + [Digit(n % 10)]
  }

  function DateText(d: Date): string {
    Decimal(d.year, 4) + "-" + Decimal(d.month, 2) + "-" + Decimal(d.day, 2)
  }

  function TimeText(secondOfDay: nat): string {
    Decimal(secondOfDay / 3600, 2) + ":" + Decimal(secondOfDay % 3600 / 60, 2) + ":" + Decimal(secondOfDay % 60, 2)
  }

  /** The timestamp for `secs` seconds since the epoch. */
  function Format(secs: nat): string {
    DateText(DaysToYmd(secs / SECS_PER_DAY)) + "T" + TimeText(secs % SECS_PER_DAY) + "Z"
  }

  // ---- order of texts ----

  lemma {:induction false} LessExtends(a: string, b: string, c: string, d: string)
    requires |a| == |b| && StringLess(a, b)
    ensures StringLess(a + c, b + d)
  {
    assert (a + c)[0] == a[0] && (b + d)[0] == b[0];
    if a[0] == b[0] {
      LessExtends(a[1..], b[1..], c, d);
      assert (a + c)[1..] == a[1..] + c && (b + d)[1..] == b[1..] + d;
    }
  }

  lemma {:induction false} LessPrefixed(a: string, c: string, d: string)
    requires StringLess(c, d)
    ensures StringLess(a + c, a + d)
  {
    if a == [] {
      assert a + c == c && a + d == d;
    } else {
      LessPrefixed(a[1..], c, d);
      assert (a + c)[1..] == a[1..] + c && (a + d)[1..] == a[1..] + d;
    }
  }

  function Pow10(w: nat): nat {
    if w == 0 then 1 else 10 * Pow10(w - 1)
  }

  lemma {:induction false} DecimalWidth(n: nat, w: nat)
    requires 1 <= w && n < Pow10(w)
    ensures |Decimal(n, w)| == w
  {
    if w > 1 {
      DecimalWidth(n / 10, w - 1);
    }
  }

  /** Numbers of one width sort as their texts do. */
  lemma {:induction false} DecimalLess(n: nat, m: nat, w: nat)
    requires 1 <= w && n < m < Pow10(w)
    ensures StringLess(Decimal(n, w), Decimal(m, w)) && |Decimal(n, w)| == |Decimal(m, w)| == w
  {
    DecimalWidth(n, w);
    DecimalWidth(m, w);
    if w == 1 {
      assert n < 10 && m < 10;
      DigitLess(n, m);
    } else if n / 10 < m / 10 {
      DecimalLess(n / 10, m / 10, w - 1);
      LessExtends(Decimal(n / 10, w - 1), Decimal(m / 10, w - 1), [Digit(n % 10)], [Digit(m % 10)]);
    } else {
      DigitLess(n % 10, m % 10);
      LessPrefixed(Decimal(n / 10, w - 1), [Digit(n % 10)], [Digit(m % 10)]);
    }
  }

  lemma DigitLess(n: nat, m: nat)
    requires n < m < 10
    ensures StringLess([Digit(n)], [Digit(m)])
  {
  }

  /** Two fields in order, then anything: the texts are in order. */
  lemma FieldLess(n: nat, m: nat, w: nat, before: string, c: string, d: string)
    requires 1 <= w && n < m < Pow10(w)
    ensures StringLess(before + Decimal(n, w) + c, before + Decimal(m, w) + d)
  {
    DecimalLess(n, m, w);
    LessExtends(Decimal(n, w), Decimal(m, w), c, d);
    LessPrefixed(before, Decimal(n, w) + c, Decimal(m, w) + d);
    assert before + Decimal(n, w) + c == before + (Decimal(n, w) + c);
    assert before + Decimal(m, w) + d == before + (Decimal(m, w) + d);
  }

  lemma Widths()
    ensures Pow10(2) == 100 && Pow10(4) == 10000
  {
    assert Pow10(3) == 1000;
  }

  lemma DateTextLess(a: Date, b: Date)
    requires IsDate(a) && IsDate(b) && Before(a, b) && b.year <= 9999
    ensures StringLess(DateText(a), DateText(b)) && |DateText(a)| == |DateText(b)| == 10
  {
    hide Decimal, StringLess, Pow10;
    Widths();
    DateWidth(a);
    DateWidth(b);
    if a.year < b.year {
      FieldLess(a.year, b.year, 4, "", "-" + Decimal(a.month, 2) + "-" + Decimal(a.day, 2),
          "-" + Decimal(b.month, 2) + "-" + Decimal(b.day, 2));
      DateFromYear(a);
      DateFromYear(b);
    } else if a.month < b.month {
      FieldLess(a.month, b.month, 2, Decimal(a.year, 4) + "-", "-" + Decimal(a.day, 2), "-" + Decimal(b.day, 2));
      DateFromMonth(a);
      DateFromMonth(b);
    } else {
      FieldLess(a.day, b.day, 2, Decimal(a.year, 4) + "-" + Decimal(a.month, 2) + "-", "", "");
      DateFromDay(a);
      DateFromDay(b);
    }
  }

  lemma DateFromYear(d: Date)
    ensures DateText(d) == "" + Decimal(d.year, 4) + ("-" + Decimal(d.month, 2) + "-" + Decimal(d.day, 2))
  {
  }

  lemma DateFromMonth(d: Date)
    ensures DateText(d) == Decimal(d.year, 4) + "-" + Decimal(d.month, 2) + ("-" + Decimal(d.day, 2))
  {
  }

  lemma DateFromDay(d: Date)
    ensures DateText(d) == Decimal(d.year, 4) + "-" + Decimal(d.month, 2) + "-" + Decimal(d.day, 2) + ""
  {
  }

  lemma DateWidth(d: Date)
    requires IsDate(d) && d.year <= 9999
    ensures |DateText(d)| == 10
  {
    hide Decimal, Pow10;
    Widths();
    DecimalWidth(d.year, 4);
    DecimalWidth(d.month, 2);
    DecimalWidth(d.day, 2);
  }

  lemma TimeTextLess(a: nat, b: nat)
    requires a < b < SECS_PER_DAY
    ensures StringLess(TimeText(a), TimeText(b))
  {
    hide Decimal, StringLess, Pow10;
    Widths();
    var ha, ma, sa := a / 3600, a % 3600 / 60, a % 60;
    var hb, mb, sb := b / 3600, b % 3600 / 60, b % 60;
    assert ha < hb || (ha == hb && (ma < mb || (ma == mb && sa < sb))) by { ClockOrder(a, b); }
    if ha < hb {
      FieldLess(ha, hb, 2, "", ":" + Decimal(ma, 2) + ":" + Decimal(sa, 2),
          ":" + Decimal(mb, 2) + ":" + Decimal(sb, 2));
      TimeFromHour(a);
      TimeFromHour(b);
    } else if ma < mb {
      FieldLess(ma, mb, 2, Decimal(ha, 2) + ":", ":" + Decimal(sa, 2), ":" + Decimal(sb, 2));
      TimeFromMinute(a);
      TimeFromMinute(b);
    } else {
      FieldLess(sa, sb, 2, Decimal(ha, 2) + ":" + Decimal(ma, 2) + ":", "", "");
      TimeFromSecond(a);
      TimeFromSecond(b);
    }
  }

  lemma ClockOrder(a: nat, b: nat)
    requires a < b < SECS_PER_DAY
    ensures a / 3600 <= b / 3600 < 24
    ensures a / 3600 == b / 3600 ==> a % 3600 / 60 <= b % 3600 / 60
    ensures a / 3600 == b / 3600 && a % 3600 / 60 == b % 3600 / 60 ==> a % 60 < b % 60
  {
  }

  lemma TimeFromHour(t: nat)
    ensures TimeText(t) == "" + Decimal(t / 3600, 2) + (":" + Decimal(t % 3600 / 60, 2) + ":" + Decimal(t % 60, 2))
  {
  }

  lemma TimeFromMinute(t: nat)
    ensures TimeText(t) == Decimal(t / 3600, 2) + ":" + Decimal(t % 3600 / 60, 2) + (":" + Decimal(t % 60, 2))
  {
  }

  lemma TimeFromSecond(t: nat)
    ensures TimeText(t) == Decimal(t / 3600, 2) + ":" + Decimal(t % 3600 / 60, 2) + ":" + Decimal(t % 60, 2) + ""
  {
  }

  /** Up to the year 9999, timestamps sort as strings in the order of the times they stand for. */
  lemma TimestampsSort(a: nat, b: nat)
    requires a < b && DaysToYmd(b / SECS_PER_DAY).year <= 9999
    ensures StringLess(Format(a), Format(b))
  {
    hide DateText, TimeText, StringLess, DaysToYmd;
    var da, db := a / SECS_PER_DAY, b / SECS_PER_DAY;
    var ta, tb := TimeText(a % SECS_PER_DAY), TimeText(b % SECS_PER_DAY);
    NextDay(da);
    NextDay(db);
    if da < db {
      DatesIncrease(da, db);
      DateTextLess(DaysToYmd(da), DaysToYmd(db));
      LessExtends(DateText(DaysToYmd(da)), DateText(DaysToYmd(db)), "T" + ta + "Z", "T" + tb + "Z");
    } else {
      TimeTextLess(a % SECS_PER_DAY, b % SECS_PER_DAY);
      TimeWidth(a % SECS_PER_DAY);
      TimeWidth(b % SECS_PER_DAY);
      LessExtends(ta, tb, "Z", "Z");
      LessPrefixed(DateText(DaysToYmd(da)) + "T", ta + "Z", tb + "Z");
    }
    Joined(a);
    Joined(b);
  }

  lemma TimeWidth(t: nat)
    requires t < SECS_PER_DAY
    ensures |TimeText(t)| == 8
  {
    hide Decimal, Pow10;
    Widths();
    DecimalWidth(t / 3600, 2);
    DecimalWidth(t % 3600 / 60, 2);
    DecimalWidth(t % 60, 2);
  }

  lemma Joined(secs: nat)
    ensures Format(secs) == DateText(DaysToYmd(secs / SECS_PER_DAY)) + ("T" + TimeText(secs % SECS_PER_DAY) + "Z")
    ensures Format(secs) == DateText(DaysToYmd(secs / SECS_PER_DAY)) + "T" + (TimeText(secs % SECS_PER_DAY) + "Z")
  {
    hide DateText, TimeText, DaysToYmd;
  }

  // ---- reading a timestamp back ----

  /** The number some decimal digits stand for. */
  function Number(digits: string): nat {
    if digits == [] then 0
    else
      var last := digits[|digits| - 1];
      10 * Number(digits[..|digits| - 1]) + if '0' <= last <= '9' then (last - '0') as nat else 0
  }

  lemma {:induction false} NumberOfDecimal(n: nat, width: nat)
    ensures Number(Decimal(n, width)) == n
    ensures forall i :: 0 <= i < |Decimal(n, width)| ==> '0' <= Decimal(n, width)[i] <= '9'
    decreases n, width
  {
    if n < 10 && width <= 1 {
      assert [Digit(n)][..0] == [];
    } else {
      var w := if width == 0 then 0 else width - 1;
      NumberOfDecimal(n / 10, w);
      var all := Decimal(n / 10, w) + [Digit(n % 10)];
      assert all[..|all| - 1] == Decimal(n / 10, w);
    }
  }

  /** The form RFC 3339 asks for (section 5.6), and the fields are those of the time. */
  lemma ReadsBack(secs: nat)
    requires DaysToYmd(secs / SECS_PER_DAY).year <= 9999
    ensures var t := Format(secs); var d := DaysToYmd(secs / SECS_PER_DAY); var s := secs % SECS_PER_DAY;
            && |t| == 20 && t[4] == '-' && t[7] == '-' && t[10] == 'T' && t[13] == ':' && t[16] == ':' && t[19] == 'Z'
            && Number(t[0..4]) == d.year && Number(t[5..7]) == d.month && Number(t[8..10]) == d.day
            && Number(t[11..13]) < 24 && Number(t[14..16]) < 60 && Number(t[17..19]) < 60
            && 3600 * Number(t[11..13]) + 60 * Number(t[14..16]) + Number(t[17..19]) == s
  {
    hide Decimal, Number, DaysToYmd;
    var d, s := DaysToYmd(secs / SECS_PER_DAY), secs % SECS_PER_DAY;
    NextDay(secs / SECS_PER_DAY);
    DateReadsBack(d);
    TimeReadsBack(s);
    var t := Format(secs);
    assert t == DateText(d) + "T" + TimeText(s) + "Z";
    Pieces(DateText(d), TimeText(s));
  }

  lemma Pieces(date: string, time: string)
    requires |date| == 10 && |time| == 8
    ensures var t := date + "T" + time + "Z";
            && |t| == 20 && t[4] == date[4] && t[7] == date[7] && t[10] == 'T' && t[13] == time[2] && t[16] == time[5]
            && t[19] == 'Z' && t[0..4] == date[0..4] && t[5..7] == date[5..7] && t[8..10] == date[8..10]
            && t[11..13] == time[0..2] && t[14..16] == time[3..5] && t[17..19] == time[6..8]
  {
  }

  lemma DateReadsBack(d: Date)
    requires IsDate(d) && d.year <= 9999
    ensures var t := DateText(d);
            && |t| == 10 && t[4] == '-' && t[7] == '-'
            && Number(t[0..4]) == d.year && Number(t[5..7]) == d.month && Number(t[8..10]) == d.day
  {
    hide Decimal, Number, Pow10;
    Widths();
    DecimalWidth(d.year, 4);
    DecimalWidth(d.month, 2);
    DecimalWidth(d.day, 2);
    NumberOfDecimal(d.year, 4);
    NumberOfDecimal(d.month, 2);
    NumberOfDecimal(d.day, 2);
    var t := DateText(d);
    assert t[0..4] == Decimal(d.year, 4) && t[5..7] == Decimal(d.month, 2) && t[8..10] == Decimal(d.day, 2);
  }

  lemma TimeReadsBack(s: nat)
    requires s < SECS_PER_DAY
    ensures var t := TimeText(s);
            && |t| == 8 && t[2] == ':' && t[5] == ':'
            && Number(t[0..2]) < 24 && Number(t[3..5]) < 60 && Number(t[6..8]) < 60
            && 3600 * Number(t[0..2]) + 60 * Number(t[3..5]) + Number(t[6..8]) == s
  {
    hide Decimal, Number, Pow10;
    Widths();
    var h, m, r := s / 3600, s % 3600 / 60, s % 60;
    assert h < 24 && m < 60 && r < 60 && 3600 * h + 60 * m + r == s by { ClockFields(s); }
    DecimalWidth(h, 2);
    DecimalWidth(m, 2);
    DecimalWidth(r, 2);
    NumberOfDecimal(h, 2);
    NumberOfDecimal(m, 2);
    NumberOfDecimal(r, 2);
    var t := TimeText(s);
    assert t[0..2] == Decimal(h, 2) && t[3..5] == Decimal(m, 2) && t[6..8] == Decimal(r, 2);
  }

  lemma ClockFields(s: nat)
    requires s < SECS_PER_DAY
    ensures s / 3600 < 24 && s % 3600 / 60 < 60 && 3600 * (s / 3600) + 60 * (s % 3600 / 60) + s % 60 == s
  {
    assert s % 60 == s % 3600 % 60;
  }
}
