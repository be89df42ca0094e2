/** The date helpers of the chatbot (`src/utils/date.js`) and the two
    imported-but-absent helpers the services rely on (`formatToIsoDate`,
    `formatToKoreanShortDate`), over calendar days. */
module DateUtil {
  import opened Wrappers
  import opened Text
  import opened Js
  import opened Calendar

  /** What the chatbot takes from its surroundings: the current day in the
      configured time zone, dayjs's parser, `parseFlexibleDate` and
      `formatToKoreanShortDate`. None of them is part of this model. */
  datatype Env = Env(
    today: Day,
    dayjsParse: Value -> Option<Day>,
    flexibleParse: Value -> Option<Day>,
    shortDate: Day -> string)

  /** An argument of `toZonedDayjs`: a date dayjs already holds, or a raw
      JSON value still to be parsed. */
  datatype DateArg = Parsed(day: Day) | Raw(v: Value)

  predicate ArgTruthy(a: DateArg) {
    a.Parsed? || Truthy(a.v)
  }

  /** `toZonedDayjs`: never fails; a missing or unparseable value is "now". */
  function ToZoned(env: Env, a: DateArg): (d: Day)
    ensures a.Parsed? ==> d == a.day
    ensures !ArgTruthy(a) ==> d == env.today
    ensures a.Raw? && Truthy(a.v) && env.dayjsParse(a.v).None? ==> d == env.today
    ensures a.Raw? && Truthy(a.v) && env.dayjsParse(a.v).Some? ==> d == env.dayjsParse(a.v).value
  {
    match a
    case Parsed(day) => day
    case Raw(v) =>
      if !Truthy(v) then env.today
      else env.dayjsParse(v).GetOr(env.today)
  }

  // ------------------------------------------------------------ numerals

  /** dayjs `YYYY`: the year padded to four digits. */
  function Year4(y: int): (r: string)
    ensures 0 <= y <= 9999 ==> |r| == 4 && AllDigits(r) && DecimalValue(r) == y
  {
    if 0 <= y then
      PaddedDigits(NatToString(y), 4);
      PadStart(IntToString(y), 4, '0')
    else PadStart(IntToString(y), 4, '0')
  }

  /** `formatNeisDate`: `YYYYMMDD`, the day key of the NEIS open API. */
  function FormatNeisDate(env: Env, a: DateArg): (r: string)
    ensures var d := ToZoned(env, a);
      0 <= d.year <= 9999 ==>
        && |r| == 8 && AllDigits(r)
        && DecimalValue(r[..4]) == d.year
        && DecimalValue(r[4..6]) == d.month
        && DecimalValue(r[6..]) == d.day
  {
    Compact(ToZoned(env, a))
  }

  function Compact(d: Day): (r: string)
    ensures 0 <= d.year <= 9999 ==>
        && |r| == 8 && AllDigits(r)
        && r[..4] == Year4(d.year) && r[4..6] == Pad2(d.month) && r[6..] == Pad2(d.day)
  {
    Year4(d.year) + Pad2(d.month) + Pad2(d.day)
  }

  /** Distinct days of four-digit years have distinct NEIS keys. */
  lemma NeisDateInjective(env: Env, a: DateArg, b: DateArg)
    requires 0 <= ToZoned(env, a).year <= 9999 && 0 <= ToZoned(env, b).year <= 9999
    requires FormatNeisDate(env, a) == FormatNeisDate(env, b)
    ensures ToZoned(env, a) == ToZoned(env, b)
  {
  }

  // -------------------------------------------------------------- display

  /** dayjs `ddd` in the ko locale. */
  function KoWeekdayShort(w: nat): (r: string)
    requires w < 7
    ensures |r| == 1
  {
    ["일", "월", "화", "수", "목", "금", "토"][w]
  }

  /** `(ddd)`: the short weekday name in parentheses. */
  function WeekdayTag(d: Day): (r: string)
    ensures |r| == 3 && r[1..2] == KoWeekdayShort(Weekday(d))
  {
    "(" + KoWeekdayShort(Weekday(d)) + ")"
  }

  /** `M월 D일 (ddd)`: month and day without padding. */
  function MonthDayText(d: Day): string {
    MonthDay(d) + WeekdayTag(d)
  }

  /** `M월 D일 `. */
  function MonthDay(d: Day): string {
    NatToString(d.month) + "월 " + NatToString(d.day) + "일 "
  }

  function DisplayDay(d: Day): string {
    Year4(d.year) + "년 " + MonthDayText(d)
  }

  /** A text framed by a head and a tail starts with the one and ends
      with the other. */
  lemma Framed(head: string, a: string, b: string, tail: string)
    ensures var r := (head + a) + (b + tail);
      && |r| >= |head| + |tail| && r[..|head|] == head && r[|r| - |tail|..] == tail
  {
    var r := (head + a) + (b + tail);
    assert r == head + (a + b + tail);
    assert r == (head + a + b) + tail;
  }

  /** `formatDisplayDate`: `YYYY년 M월 D일 (ddd)`. The year, for years of at
      most four digits, reads back from the first four characters, and the
      text closes with the weekday in parentheses. */
  function FormatDisplayDate(env: Env, a: DateArg): (r: string)
    ensures var d := ToZoned(env, a);
      && r == Year4(d.year) + "년 " + MonthDayText(d)
      && (0 <= d.year <= 9999 ==> |r| >= 4 && DecimalValue(r[..4]) == d.year)
      && |r| >= 3 && r[|r| - 3..] == WeekdayTag(d)
  {
    var d := ToZoned(env, a);
    Framed(Year4(d.year), "년 ", MonthDay(d), WeekdayTag(d));
    DisplayDay(d)
  }

  /** `formatDisplayRange`: a single day when `end` is missing or the same
      day; otherwise the full start, " ~ ", and the end without its year. */
  function FormatDisplayRange(env: Env, start: DateArg, end: DateArg): (r: string)
    ensures !ArgTruthy(end) || ToZoned(env, end) == ToZoned(env, start) ==>
              r == FormatDisplayDate(env, start)
    ensures ArgTruthy(end) && ToZoned(env, end) != ToZoned(env, start) ==>
              && r == FormatDisplayDate(env, start) + " ~ " + MonthDayText(ToZoned(env, end))
              && FormatDisplayDate(env, end) == Year4(ToZoned(env, end).year) + "년 " + MonthDayText(ToZoned(env, end))
  {
    var s := ToZoned(env, start);
    var e := ToZoned(env, end);
    if !ArgTruthy(end) || e == s then FormatDisplayDate(env, Parsed(s))
    else DisplayDay(s) + " ~ " + MonthDayText(e)
  }

  /** `getSemesterByMonth`: spring semester is March to August. */
  function SemesterByMonth(month: int): (r: string)
    ensures r == "1" || r == "2"
    ensures r == "1" <==> 3 <= month <= 8
  {
    if month >= 3 && month <= 8 then "1" else "2"
  }

  // ------------------------------------------------------------ ISO dates

  /** `formatToIsoDate`, taken to be zero-padded `YYYY-MM-DD`. */
  function IsoDate(d: Day): (r: string)
    ensures 0 <= d.year <= 9999 ==> |r| == 10 && r[4] == '-' && r[7] == '-'
  {
    Year4(d.year) + "-" + Pad2(d.month) + "-" + Pad2(d.day)
  }

  function Pow10(n: nat): nat {
    if n == 0 then 1 else 10 * Pow10(n - 1)
  }

  lemma {:induction false} DecimalBound(s: string)
    requires AllDigits(s)
    ensures DecimalValue(s) < Pow10(|s|)
  {
    if |s| > 0 {
      DecimalBound(s[..|s| - 1]);
    }
  }

  lemma {:induction false} DecimalFront(s: string)
    requires AllDigits(s) && |s| > 0
    ensures DecimalValue(s) == DigitValue(s[0]) * Pow10(|s| - 1) + DecimalValue(s[1..])
  {
    if |s| > 1 {
      var init, rest, last := s[..|s| - 1], s[1..], DigitValue(s[|s| - 1]);
      DecimalFront(init);
      assert init[0] == s[0];
      assert init[1..] == rest[..|rest| - 1] && rest[|rest| - 1] == s[|s| - 1];
      assert DecimalValue(rest) == DecimalValue(init[1..]) * 10 + last;
      assert Pow10(|s| - 1) == Pow10(|s| - 2) * 10;
      ShiftDigit(DigitValue(s[0]), Pow10(|s| - 2), DecimalValue(init[1..]), last);
    } else {
      assert s[..0] == [];
    }
  }

  /** Appending a digit to `d` followed by `t` shifts both by ten. */
  lemma ShiftDigit(d: int, p: int, t: int, last: int)
    ensures (d * p + t) * 10 + last == d * (p * 10) + (t * 10 + last)
  {
  }

  /** A smaller leading digit makes a smaller numeral, whatever follows. */
  lemma FrontDigitDecides(dx: nat, dy: nat, tx: nat, ty: nat, p: nat)
    requires dx < dy && tx < p
    ensures dx * p + tx < dy * p + ty
  {
    assert (dx + 1) * p <= dy * p;
  }

  /** Numerals of equal width compare as strings the way their values do. */
  lemma {:induction false} FixedWidthOrder(x: string, y: string)
    requires |x| == |y| && AllDigits(x) && AllDigits(y)
    ensures StrLe(x, y) <==> DecimalValue(x) <= DecimalValue(y)
  {
    if |x| > 0 {
      var tx, ty := x[1..], y[1..];
      DecimalFront(x);
      DecimalFront(y);
      DecimalBound(tx);
      DecimalBound(ty);
      var p := Pow10(|x| - 1);
      var dx, dy := DigitValue(x[0]), DigitValue(y[0]);
      assert DecimalValue(x) == dx * p + DecimalValue(tx);
      assert DecimalValue(y) == dy * p + DecimalValue(ty);
      if x[0] < y[0] {
        assert StrLe(x, y);
        FrontDigitDecides(dx, dy, DecimalValue(tx), DecimalValue(ty), p);
      } else if x[0] > y[0] {
        assert !StrLe(x, y);
        FrontDigitDecides(dy, dx, DecimalValue(ty), DecimalValue(tx), p);
      } else {
        assert StrLe(x, y) == StrLe(tx, ty);
        FixedWidthOrder(tx, ty);
      }
    }
  }

  lemma {:induction false} StrLeConcat(x1: string, x2: string, y1: string, y2: string)
    requires |x1| == |y1|
    ensures StrLe(x1 + x2, y1 + y2) <==> (x1 != y1 && StrLe(x1, y1)) || (x1 == y1 && StrLe(x2, y2))
  {
    if |x1| > 0 {
      assert (x1 + x2)[1..] == x1[1..] + x2;
      assert (y1 + y2)[1..] == y1[1..] + y2;
      StrLeConcat(x1[1..], x2, y1[1..], y2);
      assert x1 == [x1[0]] + x1[1..];
      assert y1 == [y1[0]] + y1[1..];
    } else {
      assert x1 + x2 == x2 && y1 + y2 == y2;
    }
  }

  lemma DigitsEqual(x: string, y: string)
    requires |x| == |y| && AllDigits(x) && AllDigits(y)
    ensures x == y <==> DecimalValue(x) == DecimalValue(y)
  {
    FixedWidthOrder(x, y);
    FixedWidthOrder(y, x);
    if DecimalValue(x) == DecimalValue(y) {
      StrLeAntisymmetric(x, y);
    }
  }

  lemma DashPrefix(x: string, y: string)
    ensures StrLe("-" + x, "-" + y) <==> StrLe(x, y)
  {
    assert ("-" + x)[1..] == x && ("-" + y)[1..] == y;
  }

  /** Dash-separated fields of fixed widths compare field by field. */
  lemma {:induction false} DashedFields(ya: string, ma: string, da: string, yb: string, mb: string, db: string)
    requires |ya| == |yb| && |ma| == |mb|
    ensures StrLe(ya + "-" + ma + "-" + da, yb + "-" + mb + "-" + db) <==>
        || (ya != yb && StrLe(ya, yb))
        || (ya == yb && ma != mb && StrLe(ma, mb))
        || (ya == yb && ma == mb && StrLe(da, db))
  {
    var ra, rb := "-" + da, "-" + db;
    var qa, qb := "-" + (ma + ra), "-" + (mb + rb);
    assert ya + "-" + ma + "-" + da == ya + qa;
    assert yb + "-" + mb + "-" + db == yb + qb;
    StrLeConcat(ya, qa, yb, qb);
    DashPrefix(ma + ra, mb + rb);
    StrLeConcat(ma, ra, mb, rb);
    DashPrefix(da, db);
  }

  /** For four-digit years, comparing ISO strings (what the assessment
      filter does) is comparing days. */
  lemma IsoOrderIsDayOrder(a: Day, b: Day)
    requires 0 <= a.year <= 9999 && 0 <= b.year <= 9999
    ensures StrLe(IsoDate(a), IsoDate(b)) <==> DayLe(a, b)
  {
    var ya, yb := Year4(a.year), Year4(b.year);
    var ma, mb := Pad2(a.month), Pad2(b.month);
    var da, db := Pad2(a.day), Pad2(b.day);
    DashedFields(ya, ma, da, yb, mb, db);
    FixedWidthOrder(ya, yb);
    FixedWidthOrder(ma, mb);
    FixedWidthOrder(da, db);
    DigitsEqual(ya, yb);
    DigitsEqual(ma, mb);
    DayLeIsChronological(a, b);
  }
}
