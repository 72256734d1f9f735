// RFC 3339 instants over Hinnant's civil-date arithmetic: printing, parsing,
// and exactly how far they undo each other.
module Time {
  import opened Options
  import opened Text
  import opened Order

  /** The first second of the year 10000, from which on years need five digits. */
  const YEAR_10000: int := 253_402_300_800

  datatype Date = Date(y: int, m: int, d: int)

  function YearOfEra(doe: nat): int {
    (doe - doe / 1460 + doe / 36_524 - doe / 146_096) / 365
  }

  /** The civil date `days` days after 1970-01-01. */
  function CivilFromDays(days: nat): Date {
    var z := days + 719_468;
    var era := z / 146_097;
    var doe := z - era * 146_097;
    var yoe := YearOfEra(doe);
    var y := yoe + era * 400;
    var doy := doe - (365 * yoe + yoe / 4 - yoe / 100);
    var mp := (5 * doy + 2) / 153;
    var d := doy - (153 * mp + 2) / 5 + 1;
    var m := if mp < 10 then mp + 3 else mp - 9;
    Date(if m <= 2 then y + 1 else y, m, d)
  }

  /** Division towards zero, as Rust divides. */
  function TruncDiv(a: int, b: int): int
    requires b > 0
  {
    if a >= 0 then a / b else -(-a / b)
  }

  /** Days since 1970-01-01 of a civil date. */
  function DaysFromCivil(date: Date): int {
    var y := if date.m <= 2 then date.y - 1 else date.y;
    var era := TruncDiv(if y >= 0 then y else y - 399, 400);
    var yoe := y - era * 400;
    var mp := if date.m > 2 then date.m - 3 else date.m + 9;
    var doy := (153 * mp + 2) / 5 + date.d - 1;
    var doe := yoe * 365 + yoe / 4 - yoe / 100 + doy;
    era * 146_097 + doe - 719_468
  }

  /** `YYYY-MM-DDTHH:MM:SSZ` from unix seconds. */
  function NowRfc3339(t: nat): string {
    CivilIsReal(t / 86_400);
    var date, rem := CivilFromDays(t / 86_400), t % 86_400;
    Print(date.y, date.m, date.d, rem / 3600, (rem / 60) % 60, rem % 60)
  }

  function Print(y: nat, m: nat, d: nat, hh: nat, mm: nat, ss: nat): string {
    Padded(y, 4) + "-" + Padded(m, 2) + "-" + Padded(d, 2) + "T"
    + Padded(hh, 2) + ":" + Padded(mm, 2) + ":" + Padded(ss, 2) + "Z"
  }

  /** The fixed-width format, read back; a day before 1970 wraps around in 64 bits. */
  function ParseRfc3339(s: string): Option<nat> {
    if !Shaped(s) then None else
      var date := Date(Digits(s[0..4]), Digits(s[5..7]), Digits(s[8..10]));
      var hh, mm, ss := Digits(s[11..13]), Digits(s[14..16]), Digits(s[17..19]);
      if !(1 <= date.m <= 12) || !(1 <= date.d <= 31) || hh > 23 || mm > 59 || ss > 59 then None else
        Some((DaysFromCivil(date) * 86_400 + hh * 3600 + mm * 60 + ss) % U64_LIMIT)
  }

  predicate Shaped(s: string) {
    && |s| == 20
    && s[4] == '-' && s[7] == '-' && s[10] == 'T' && s[13] == ':' && s[16] == ':' && s[19] == 'Z'
    && AllDigits(s[0..4]) && AllDigits(s[5..7]) && AllDigits(s[8..10])
    && AllDigits(s[11..13]) && AllDigits(s[14..16]) && AllDigits(s[17..19])
  }

  // --- The Gregorian calendar ---------------------------------------------------

  predicate IsLeap(y: int) {
    y % 4 == 0 && (y % 100 != 0 || y % 400 == 0)
  }

  function DaysInMonth(y: int, m: int): int {
    if m == 2 then (if IsLeap(y) then 29 else 28) else if m in {4, 6, 9, 11} then 30 else 31
  }

  /** A date that exists. */
  predicate RealDate(date: Date) {
    1 <= date.m <= 12 && 1 <= date.d <= DaysInMonth(date.y, date.m)
  }

  predicate Earlier(a: Date, b: Date) {
    a.y < b.y || (a.y == b.y && (a.m < b.m || (a.m == b.m && a.d < b.d)))
  }

  /** Day `e` of year `100c + 4q + r` of an era; only a leap year ends in day 365. */
  predicate EraDay(c: int, q: int, r: int, e: int) {
    0 <= c < 4 && 0 <= q < 25 && 0 <= r < 4 && 0 <= e <= 365 && (e == 365 ==> r == 3 && (q < 24 || c == 3))
  }

  /** Quotients by the calendar's own divisors. */
  lemma QuotientIs(a: int, b: int, k: int)
    requires b in {4, 100, 365, 400, 1460, 36_524, 146_096, 146_097} && b * k <= a < b * k + b
    ensures a / b == k
  {
    if b == 4 { assert a / 4 == k; }
    else if b == 100 { assert a / 100 == k; }
    else if b == 365 { assert a / 365 == k; }
    else if b == 400 { assert a / 400 == k; }
    else if b == 1460 { assert a / 1460 == k; }
    else if b == 36_524 { assert a / 36_524 == k; }
    else if b == 146_096 { assert a / 146_096 == k; }
    else { assert a / 146_097 == k; }
  }

  lemma YearOfEraExact(c: int, q: int, r: int, e: int)
    requires EraDay(c, q, r, e)
    ensures
      var doe := 36_524 * c + 1461 * q + 365 * r + e;
      var yoe := 100 * c + 4 * q + r;
      && 0 <= doe < 146_097 && YearOfEra(doe) == yoe
      && doe - (365 * yoe + yoe / 4 - yoe / 100) == e
  {
    hide YearOfEra;
    var doe := 36_524 * c + 1461 * q + 365 * r + e;
    var yoe := 100 * c + 4 * q + r;
    QuotientIs(yoe, 4, 25 * c + q);
    QuotientIs(yoe, 100, c);
    var late := if 24 * c + q + 365 * r + e >= 1460 then 1 else 0;
    var end := if q == 24 && r == 3 && e == 365 then 1 else 0;
    QuotientIs(doe, 1460, 25 * c + q + late);
    QuotientIs(doe, 36_524, c + end);
    QuotientIs(doe, 146_096, end);
    YearOfEraIs(doe, 25 * c + q + late, c + end, end, yoe);
  }

  lemma YearOfEraIs(doe: nat, a: int, b: int, c: int, yoe: int)
    requires doe / 1460 == a && doe / 36_524 == b && doe / 146_096 == c
    requires 365 * yoe <= doe - a + b - c < 365 * yoe + 365
    ensures YearOfEra(doe) == yoe
  {
    QuotientIs(doe - a + b - c, 365, yoe);
  }

  lemma SplitEra(doe: nat) returns (c: int, q: int, r: int, e: int)
    requires doe < 146_097
    ensures EraDay(c, q, r, e) && doe == 36_524 * c + 1461 * q + 365 * r + e
  {
    c := if doe == 146_096 then 3 else doe / 36_524;
    var inCentury := doe - 36_524 * c;
    q := inCentury / 1461;
    var inCycle := inCentury - 1461 * q;
    r := if inCycle == 1460 then 3 else inCycle / 365;
    e := inCycle - 365 * r;
  }

  lemma SplitYear(y: nat) returns (era: nat, c: int, q: int, r: int)
    ensures 0 <= c < 4 && 0 <= q < 25 && 0 <= r < 4 && y == 400 * era + 100 * c + 4 * q + r
  {
    era := y / 400;
    var yoe := y - 400 * era;
    c := yoe / 100;
    q := (yoe - 100 * c) / 4;
    r := yoe - 100 * c - 4 * q;
  }

  lemma MonthOfDay(doy: int)
    requires 0 <= doy <= 365
    ensures
      var mp := (5 * doy + 2) / 153;
      var d := doy - (153 * mp + 2) / 5 + 1;
      && 0 <= mp < 12 && 1 <= d <= MonthLength(mp) + (if mp == 11 then 1 else 0)
      && (mp == 11 && d == 29 <==> doy == 365)
  {
  }

  /** Days of the month `mp` months after March, in a common year. */
  function MonthLength(mp: int): int {
    if mp in {1, 3, 6, 8} then 30 else if mp == 11 then 28 else 31
  }

  lemma DayOfMonth(mp: int, d: int)
    requires 0 <= mp < 12 && 1 <= d <= MonthLength(mp) + (if mp == 11 then 1 else 0)
    ensures
      var doy := (153 * mp + 2) / 5 + d - 1;
      0 <= doy <= 365 && (5 * doy + 2) / 153 == mp && (doy == 365 <==> mp == 11 && d == 29)
  {
  }

  /** A date by its year counted from March, as both directions go through it. */
  function MarchDate(y: int, mp: int, d: int): Date {
    Date(if mp >= 10 then y + 1 else y, if mp < 10 then mp + 3 else mp - 9, d)
  }

  function YearStart(y: nat): int {
    365 * y + y / 4 - y / 100 + y / 400
  }

  lemma DaysOfMarchDate(y: nat, mp: int, d: int)
    requires 0 <= mp < 12
    ensures DaysFromCivil(MarchDate(y, mp, d)) == YearStart(y) + (153 * mp + 2) / 5 + d - 1 - 719_468
  {
    var era, yoe := y / 400, y % 400;
    QuotientIs(y, 4, 100 * era + yoe / 4);
    QuotientIs(y, 100, 4 * era + yoe / 100);
  }

  lemma CivilOfMarchDate(era: nat, c: int, q: int, r: int, mp: int, d: int, days: nat)
    requires 0 <= mp < 12 && 1 <= d <= MonthLength(mp) + (if mp == 11 then 1 else 0)
    requires EraDay(c, q, r, (153 * mp + 2) / 5 + d - 1)
    requires days + 719_468 == 146_097 * era + 36_524 * c + 1461 * q + 365 * r + (153 * mp + 2) / 5 + d - 1
    ensures CivilFromDays(days) == MarchDate(400 * era + 100 * c + 4 * q + r, mp, d)
  {
    hide YearOfEra;
    DayOfMonth(mp, d);
    YearOfEraExact(c, q, r, (153 * mp + 2) / 5 + d - 1);
    QuotientIs(days + 719_468, 146_097, era);
  }

  lemma YearStartOfEra(era: nat, c: int, q: int, r: int)
    requires 0 <= c < 4 && 0 <= q < 25 && 0 <= r < 4
    ensures YearStart(400 * era + 100 * c + 4 * q + r) == 146_097 * era + 36_524 * c + 1461 * q + 365 * r
  {
    var y := 400 * era + 100 * c + 4 * q + r;
    QuotientIs(y, 4, 100 * era + 25 * c + q);
    QuotientIs(y, 100, 4 * era + c);
    QuotientIs(y, 400, era);
  }

  lemma LeapInEra(era: int, c: int, q: int, r: int)
    requires 0 <= c < 4 && 0 <= q < 25 && 0 <= r < 4
    ensures IsLeap(400 * era + 100 * c + 4 * q + r + 1) <==> r == 3 && (q < 24 || c == 3)
  {
  }

  lemma MarchDateReal(y: int, mp: int, d: int)
    requires 0 <= mp < 12
    ensures RealDate(MarchDate(y, mp, d))
       <==> 1 <= d <= MonthLength(mp) + (if mp == 11 && IsLeap(y + 1) then 1 else 0)
  {
  }

  /** Every day number is a real date from 1970 on, and counting back gives the number. */
  lemma CivilIsReal(days: nat)
    ensures RealDate(CivilFromDays(days)) && CivilFromDays(days).y >= 1970
    ensures DaysFromCivil(CivilFromDays(days)) == days
  {
    hide CivilFromDays, DaysFromCivil, RealDate, IsLeap, YearStart;
    var era, doe := (days + 719_468) / 146_097, (days + 719_468) % 146_097;
    var c, q, r, e := SplitEra(doe);
    MonthOfDay(e);
    var mp := (5 * e + 2) / 153;
    var d := e - (153 * mp + 2) / 5 + 1;
    var y := 400 * era + 100 * c + 4 * q + r;
    CivilOfMarchDate(era, c, q, r, mp, d, days);
    LeapInEra(era, c, q, r);
    MarchDateReal(y, mp, d);
    YearStartOfEra(era, c, q, r);
    DaysOfMarchDate(y, mp, d);
    YearsFrom1970(y, mp, d);
  }

  lemma YearsFrom1970(y: nat, mp: int, d: int)
    requires 0 <= mp < 12 && d <= 31 && YearStart(y) + (153 * mp + 2) / 5 + d - 1 >= 719_468
    ensures MarchDate(y, mp, d).y >= 1970
  {
    if y < 1970 {
      YearStartGrows(y, 1969);
      assert YearStart(1969) == 719_162;
    }
  }

  lemma {:induction false} YearStartGrows(y: nat, z: nat)
    requires y <= z
    ensures YearStart(y) + 365 * (z - y) <= YearStart(z)
    decreases z
  {
    if y < z {
      hide YearStart, IsLeap;
      YearStartGrows(y, z - 1);
      YearLength(z - 1);
    }
  }

  /** Every real date from 1970 on comes back from its day number. */
  lemma RealComesBack(date: Date)
    requires RealDate(date) && date.y >= 1970
    ensures DaysFromCivil(date) >= 0 && CivilFromDays(DaysFromCivil(date)) == date
  {
    assert 1 <= date.m <= 12;
    hide CivilFromDays, DaysFromCivil, RealDate, IsLeap, YearStart;
    var y, mp := FromMarch(date);
    var era, c, q, r := SplitYear(y);
    MarchDateReal(y, mp, date.d);
    LeapInEra(era, c, q, r);
    YearStartOfEra(era, c, q, r);
    DaysOfMarchDate(y, mp, date.d);
    DayOfMonth(mp, date.d);
    DaysFrom1970(y, mp, date.d);
    CivilOfMarchDate(era, c, q, r, mp, date.d, DaysFromCivil(date));
  }

  lemma FromMarch(date: Date) returns (y: int, mp: int)
    requires 1 <= date.m <= 12
    ensures 0 <= mp < 12 && MarchDate(y, mp, date.d) == date
    ensures y == if date.m <= 2 then date.y - 1 else date.y
  {
    y := if date.m <= 2 then date.y - 1 else date.y;
    mp := if date.m > 2 then date.m - 3 else date.m + 9;
  }

  lemma DaysFrom1970(y: nat, mp: int, d: int)
    requires 0 <= mp < 12 && d >= 1 && MarchDate(y, mp, d).y >= 1970
    ensures YearStart(y) + (153 * mp + 2) / 5 + d - 1 >= 719_468
  {
    YearStartGrows(1969, y);
    assert YearStart(1969) == 719_162;
  }

  /** Real dates from 1970 on are numbered in calendar order. */
  lemma EarlierDays(a: Date, b: Date)
    requires RealDate(a) && RealDate(b) && a.y >= 1970 && b.y >= 1970 && Earlier(a, b)
    ensures DaysFromCivil(a) < DaysFromCivil(b)
  {
    assert 1 <= a.m <= 12 && 1 <= b.m <= 12;
    hide DaysFromCivil, RealDate, IsLeap, YearStart;
    var ya, ma := FromMarch(a);
    var yb, mb := FromMarch(b);
    MarchDateReal(ya, ma, a.d);
    MarchDateReal(yb, mb, b.d);
    DaysOfMarchDate(ya, ma, a.d);
    DaysOfMarchDate(yb, mb, b.d);
    EarlierFromMarch(ya, ma, a.d, yb, mb, b.d);
    if ya < yb {
      LaterYear(ya, ma, a.d, yb, mb, b.d);
    } else {
      LaterInYear(ma, a.d, mb, b.d);
    }
  }

  lemma EarlierFromMarch(ya: int, ma: int, da: int, yb: int, mb: int, db: int)
    requires 0 <= ma < 12 && 0 <= mb < 12 && Earlier(MarchDate(ya, ma, da), MarchDate(yb, mb, db))
    ensures ya < yb || (ya == yb && (ma < mb || (ma == mb && da < db)))
  {
  }

  lemma LaterYear(ya: nat, ma: int, da: int, yb: nat, mb: int, db: int)
    requires ya < yb && 0 <= ma < 12 && 0 <= mb < 12 && 1 <= db
    requires da <= MonthLength(ma) + (if ma == 11 && IsLeap(ya + 1) then 1 else 0)
    ensures YearStart(ya) + (153 * ma + 2) / 5 + da < YearStart(yb) + (153 * mb + 2) / 5 + db
  {
    hide IsLeap, YearStart;
    YearLength(ya);
    YearStartGrows(ya + 1, yb);
    LaterInYear(ma, da, 11, if IsLeap(ya + 1) then 30 else 29);
    assert (153 * mb + 2) / 5 >= 0;
  }

  lemma LaterInYear(ma: int, da: int, mb: int, db: int)
    requires 0 <= ma < 12 && 0 <= mb < 12 && 1 <= db
    requires da <= MonthLength(ma) || (ma == 11 && da < db)
    requires ma < mb || (ma == mb && da < db)
    ensures (153 * ma + 2) / 5 + da < (153 * mb + 2) / 5 + db
  {
  }

  lemma YearLength(y: nat)
    ensures YearStart(y + 1) == YearStart(y) + 365 + (if IsLeap(y + 1) then 1 else 0)
  {
    var era, c, q, r := SplitYear(y);
    LeapInEra(era, c, q, r);
    YearStartOfEra(era, c, q, r);
    if r < 3 {
      YearStartOfEra(era, c, q, r + 1);
    } else if q < 24 {
      YearStartOfEra(era, c, q + 1, 0);
    } else if c < 3 {
      YearStartOfEra(era, c + 1, 0, 0);
    } else {
      YearStartOfEra(era + 1, 0, 0, 0);
    }
  }

  // --- Printing and parsing undo each other ---------------------------------------

  /** The printed year has four digits exactly up to the end of the year 9999. */
  lemma FourDigitYears(t: nat)
    ensures CivilFromDays(t / 86_400).y < 10_000 <==> t < YEAR_10000
  {
    hide CivilFromDays, RealDate;
    var date, last := CivilFromDays(t / 86_400), Date(9999, 12, 31);
    CivilIsReal(t / 86_400);
    assert RealDate(last) by { LastDay(); }
    assert DaysFromCivil(last) == 2_932_896;
    if date.y < 10_000 {
      if date != last && RealDate(date) {
        InYear(date);
        EarlierDays(date, last);
      }
    } else {
      EarlierDays(last, date);
    }
  }

  lemma LastDay()
    ensures RealDate(Date(9999, 12, 31))
  {
  }

  lemma InYear(date: Date)
    requires RealDate(date)
    ensures 1 <= date.m <= 12 && 1 <= date.d <= 31
  {
  }

  lemma PrintShape(y: nat, m: nat, d: nat, hh: nat, mm: nat, ss: nat)
    requires y < 10_000 && m < 100 && d < 100 && hh < 100 && mm < 100 && ss < 100
    ensures
      var s := Print(y, m, d, hh, mm, ss);
      && Shaped(s)
      && Digits(s[0..4]) == y && Digits(s[5..7]) == m && Digits(s[8..10]) == d
      && Digits(s[11..13]) == hh && Digits(s[14..16]) == mm && Digits(s[17..19]) == ss
  {
    hide Padded, Digits;
    PrintPieces(y, m, d, hh, mm, ss);
  }

  lemma PrintPieces(y: nat, m: nat, d: nat, hh: nat, mm: nat, ss: nat)
    requires y < 10_000 && m < 100 && d < 100 && hh < 100 && mm < 100 && ss < 100
    ensures
      var s := Print(y, m, d, hh, mm, ss);
      && |s| == 20
      && s[0..4] == Padded(y, 4) && s[5..7] == Padded(m, 2) && s[8..10] == Padded(d, 2)
      && s[11..13] == Padded(hh, 2) && s[14..16] == Padded(mm, 2) && s[17..19] == Padded(ss, 2)
      && s[..5] == Padded(y, 4) + "-"
      && s[..8] == s[..5] + Padded(m, 2) + "-"
      && s[..11] == s[..8] + Padded(d, 2) + "T"
      && s[..14] == s[..11] + Padded(hh, 2) + ":"
      && s[..17] == s[..14] + Padded(mm, 2) + ":"
  {
    hide Padded, Digits;
    assert Pow10(4) == 10_000 && Pow10(2) == 100;
    PaddedWidth(y, 4);
    PaddedWidth(m, 2); PaddedWidth(d, 2);
    PaddedWidth(hh, 2); PaddedWidth(mm, 2); PaddedWidth(ss, 2);
    var s := Print(y, m, d, hh, mm, ss);
    var s5 := Padded(y, 4) + "-";
    var s8 := s5 + Padded(m, 2) + "-";
    var s11 := s8 + Padded(d, 2) + "T";
    var s14 := s11 + Padded(hh, 2) + ":";
    var s17 := s14 + Padded(mm, 2) + ":";
    assert s == s17 + Padded(ss, 2) + "Z";
    TakePiece(s, s17, Padded(ss, 2), "Z");
    TakePiece(s17, s14, Padded(mm, 2), ":");
    TakePiece(s14, s11, Padded(hh, 2), ":");
    TakePiece(s11, s8, Padded(d, 2), "T");
    TakePiece(s8, s5, Padded(m, 2), "-");
    TakePiece(s5, "", Padded(y, 4), "-");
    assert s[..14] == s17[..14] && s[14..16] == s17[14..16];
    assert s[..11] == s14[..11] && s[11..13] == s14[11..13];
    assert s[..8] == s11[..8] && s[8..10] == s11[8..10];
    assert s[..5] == s8[..5] && s[5..7] == s8[5..7];
    assert s[0..4] == s5[0..4];
  }

  lemma TakePiece(s: string, prefix: string, piece: string, rest: string)
    requires s == prefix + piece + rest
    ensures s[..|prefix|] == prefix && s[|prefix|..|prefix| + |piece|] == piece
  {
  }

  lemma ClockOf(rem: nat)
    requires rem < 86_400
    ensures rem / 3600 <= 23 && (rem / 60) % 60 <= 59 && rem % 60 <= 59
    ensures rem == rem / 3600 * 3600 + (rem / 60) % 60 * 60 + rem % 60
  {
  }

  /** Parsing a printed instant gives it back up to the year 9999, and nothing after it. */
  lemma ParseOfNow(t: nat)
    requires t < U64_LIMIT
    ensures ParseRfc3339(NowRfc3339(t)) == if t < YEAR_10000 then Some(t) else None
  {
    hide CivilFromDays, DaysFromCivil, RealDate, Print, Shaped, Digits;
    var date, rem := CivilFromDays(t / 86_400), t % 86_400;
    CivilIsReal(t / 86_400);
    InYear(date);
    FourDigitYears(t);
    ClockOf(rem);
    if t < YEAR_10000 {
      PrintShape(date.y, date.m, date.d, rem / 3600, (rem / 60) % 60, rem % 60);
    } else {
      LongYear(date.y, date.m, date.d, rem / 3600, (rem / 60) % 60, rem % 60);
    }
  }

  lemma LongYear(y: nat, m: nat, d: nat, hh: nat, mm: nat, ss: nat)
    requires y >= 10_000 && m < 100 && d < 100 && hh < 100 && mm < 100 && ss < 100
    ensures !Shaped(Print(y, m, d, hh, mm, ss))
  {
    assert Pow10(4) == 10_000 && Pow10(2) == 100;
    DigitsBound(Padded(y, 4));
    if |Padded(y, 4)| <= 4 { PowGrows(|Padded(y, 4)|, 4); }
    PaddedWidth(m, 2); PaddedWidth(d, 2);
    PaddedWidth(hh, 2); PaddedWidth(mm, 2); PaddedWidth(ss, 2);
  }

  lemma {:induction false} PowGrows(a: nat, b: nat)
    requires a <= b
    ensures Pow10(a) <= Pow10(b)
  {
    if a < b {
      PowGrows(a, b - 1);
    }
  }

  /** The date fields of a shaped string. */
  function DateOf(s: string): Date
    requires Shaped(s)
  {
    Date(Digits(s[0..4]), Digits(s[5..7]), Digits(s[8..10]))
  }

  lemma ShapedIsPrint(s: string)
    requires Shaped(s)
    ensures s == Print(Digits(s[0..4]), Digits(s[5..7]), Digits(s[8..10]),
                       Digits(s[11..13]), Digits(s[14..16]), Digits(s[17..19]))
  {
    hide Padded, Digits;
    PaddedOfDigits(s[0..4]); PaddedOfDigits(s[5..7]); PaddedOfDigits(s[8..10]);
    PaddedOfDigits(s[11..13]); PaddedOfDigits(s[14..16]); PaddedOfDigits(s[17..19]);
    assert s == s[0..4] + [s[4]] + s[5..7] + [s[7]] + s[8..10] + [s[10]]
                + s[11..13] + [s[13]] + s[14..16] + [s[16]] + s[17..19] + [s[19]];
  }

  /**
   * Printing a parsed string gives it back exactly for the dates that exist
   * and are not before 1970. Other dates parse too: `2001-02-31`, or 1969,
   * which wraps around.
   */
  lemma NowOfParse(s: string)
    requires ParseRfc3339(s).Some?
    ensures NowRfc3339(ParseRfc3339(s).value) == s <==> RealDate(DateOf(s)) && DateOf(s).y >= 1970
  {
    var t := ParseRfc3339(s).value;
    var hh, mm, ss := Digits(s[11..13]), Digits(s[14..16]), Digits(s[17..19]);
    var date := DateOf(s);
    assert 0 <= hh <= 23 && 0 <= mm <= 59 && 0 <= ss <= 59;
    assert t == (DaysFromCivil(date) * 86_400 + hh * 3600 + mm * 60 + ss) % U64_LIMIT;
    assert date.y < 10_000 by { DigitsBound(s[0..4]); assert Pow10(4) == 10_000; }
    hide CivilFromDays, DaysFromCivil, RealDate, Print, Shaped, Digits, ParseRfc3339;
    if RealDate(date) && date.y >= 1970 {
      InYear(date);
      RealComesBack(date);
      assert DaysFromCivil(date) <= 2_932_896 by { DaysByYear(date); }
      DayAndClock(t, DaysFromCivil(date), hh, mm, ss);
      ShapedIsPrint(s);
    } else {
      NowFields(t);
    }
  }

  lemma DayAndClock(t: nat, days: nat, hh: nat, mm: nat, ss: nat)
    requires days <= 2_932_896 && hh <= 23 && mm <= 59 && ss <= 59
    requires t == (days * 86_400 + hh * 3600 + mm * 60 + ss) % U64_LIMIT
    ensures t / 86_400 == days && (t % 86_400) / 3600 == hh
    ensures ((t % 86_400) / 60) % 60 == mm && (t % 86_400) % 60 == ss
  {
    var clock := hh * 3600 + mm * 60 + ss;
    NoWrap(days * 86_400 + clock);
    DayOf(days, clock);
    HourOf(hh, mm * 60 + ss);
    MinuteOf(hh, mm, ss);
    SecondOf(hh, mm, ss);
  }

  lemma NoWrap(n: nat)
    requires n < U64_LIMIT
    ensures n % U64_LIMIT == n
  {
  }

  lemma DayOf(days: nat, clock: nat)
    requires clock < 86_400
    ensures (days * 86_400 + clock) / 86_400 == days && (days * 86_400 + clock) % 86_400 == clock
  {
  }

  lemma HourOf(hh: nat, rest: nat)
    requires rest < 3600
    ensures (hh * 3600 + rest) / 3600 == hh
  {
  }

  lemma MinuteOf(hh: nat, mm: nat, ss: nat)
    requires mm <= 59 && ss <= 59
    ensures ((hh * 3600 + mm * 60 + ss) / 60) % 60 == mm
  {
    Sixtieths(hh * 60 + mm, ss);
    Sixtieths(hh, mm);
  }

  lemma SecondOf(hh: nat, mm: nat, ss: nat)
    requires ss <= 59
    ensures (hh * 3600 + mm * 60 + ss) % 60 == ss
  {
    Sixtieths(hh * 60 + mm, ss);
  }

  lemma Sixtieths(n: nat, r: nat)
    requires r < 60
    ensures (n * 60 + r) / 60 == n && (n * 60 + r) % 60 == r
  {
  }

  /** Whatever is printed in the fixed-width format has a real date from 1970 on. */
  lemma NowFields(t: nat)
    ensures Shaped(NowRfc3339(t)) ==> RealDate(DateOf(NowRfc3339(t))) && DateOf(NowRfc3339(t)).y >= 1970
  {
    hide CivilFromDays, RealDate, Print, Shaped, Digits;
    var date, rem := CivilFromDays(t / 86_400), t % 86_400;
    CivilIsReal(t / 86_400);
    InYear(date);
    ClockOf(rem);
    if date.y < 10_000 {
      PrintShape(date.y, date.m, date.d, rem / 3600, (rem / 60) % 60, rem % 60);
    } else {
      LongYear(date.y, date.m, date.d, rem / 3600, (rem / 60) % 60, rem % 60);
    }
  }

  /**
   * Whatever parses, a date that exists or not, counts from 1970 as it reads
   * exactly if its year is not before 1970; any other wraps to an instant more
   * than 584 billion years from now.
   */
  lemma WrapsBefore1970(s: string)
    requires ParseRfc3339(s).Some?
    ensures DateOf(s).y < 1970 ==> ParseRfc3339(s).value >= U64_LIMIT - 719_528 * 86_400
    ensures DateOf(s).y >= 1970 ==> ParseRfc3339(s).value < YEAR_10000
    ensures DateOf(s).y >= 1970 ==> ParseRfc3339(s).value / 86_400 == DaysFromCivil(DateOf(s))
  {
    hide DaysFromCivil, Digits;
    var date := DateOf(s);
    var clock := Digits(s[11..13]) * 3600 + Digits(s[14..16]) * 60 + Digits(s[17..19]);
    assert 0 <= clock < 86_400;
    assert date.y < 10_000 by { DigitsBound(s[0..4]); assert Pow10(4) == 10_000; }
    DaysByYear(date);
    assert ParseRfc3339(s).value == (DaysFromCivil(date) * 86_400 + clock) % U64_LIMIT;
    if date.y >= 1970 {
      NoWrap(DaysFromCivil(date) * 86_400 + clock);
      DayOf(DaysFromCivil(date), clock);
    } else {
      WrapsOnce(DaysFromCivil(date) * 86_400 + clock);
    }
  }

  /** Printed fields read back, whether or not the date exists. */
  lemma ParseOfPrint(y: nat, m: nat, d: nat, hh: nat, mm: nat, ss: nat)
    requires y < 10_000 && 1 <= m <= 12 && 1 <= d <= 31 && hh <= 23 && mm <= 59 && ss <= 59
    ensures
      var s := Print(y, m, d, hh, mm, ss);
      && Shaped(s) && DateOf(s) == Date(y, m, d)
      && ParseRfc3339(s) == Some((DaysFromCivil(Date(y, m, d)) * 86_400 + hh * 3600 + mm * 60 + ss) % U64_LIMIT)
  {
    hide Print, Shaped, Digits, DaysFromCivil;
    PrintShape(y, m, d, hh, mm, ss);
  }

  lemma TwoDigits(a: nat, b: nat)
    requires a < 10 && b < 10
    ensures Padded(10 * a + b, 2) == [Digit(a), Digit(b)]
  {
    hide Padded, Decimal, Digit, Digits, AllDigits;
    FirstDigits();
    WithLastDigit(0, a, 1);
    WithLastDigit(a, b, 2);
  }

  lemma Digits1969()
    ensures Padded(1969, 4) == "1969"
  {
    hide Padded, Decimal, Digits, AllDigits;
    TwoDigits(1, 9);
    assert [Digit(1), Digit(9)] == "19" && [Digit(6)] == "6" && [Digit(9)] == "9";
    hide Digit;
    WithLastDigit(19, 6, 3);
    WithLastDigit(196, 9, 4);
  }

  /** The last second before 1970, and a day that never was, parse. */
  lemma OneSecondBefore()
    ensures
      var s := "1969-12-31T23:59:59Z";
      Shaped(s) && DateOf(s).y == 1969 && ParseRfc3339(s) == Some(U64_LIMIT - 1)
  {
    hide Print, Digits, Shaped, ParseRfc3339, DaysFromCivil;
    ParseOfPrint(1969, 12, 31, 23, 59, 59);
    LastDayBefore1970();
    WrapsOnce(-1);
    LastSecondText();
  }

  lemma LastDayBefore1970()
    ensures DaysFromCivil(Date(1969, 12, 31)) == -1
  {
  }

  lemma LastSecondText()
    ensures Print(1969, 12, 31, 23, 59, 59) == "1969-12-31T23:59:59Z"
  {
    hide Padded, Decimal, Digits, AllDigits;
    Digits1969();
    TwoDigits(1, 2); TwoDigits(3, 1); TwoDigits(2, 3); TwoDigits(5, 9);
    assert [Digit(1), Digit(2)] == "12" && [Digit(3), Digit(1)] == "31" && [Digit(2), Digit(3)] == "23";
    assert [Digit(5), Digit(9)] == "59";
  }

  lemma NoSuchDay()
    ensures
      var s := "1969-02-31T00:00:00Z";
      Shaped(s) && DateOf(s) == Date(1969, 2, 31) && ParseRfc3339(s).Some?
  {
    hide Padded, Decimal, Digits, AllDigits, Shaped, ParseRfc3339, DaysFromCivil;
    ParseOfPrint(1969, 2, 31, 0, 0, 0);
    Digits1969();
    TwoDigits(0, 2); TwoDigits(3, 1); TwoDigits(0, 0);
    assert "1969-02-31T00:00:00Z" == "1969" + "-" + "02" + "-" + "31" + "T" + "00" + ":" + "00" + ":" + "00" + "Z";
  }

  lemma WrapsOnce(n: int)
    requires -U64_LIMIT <= n < 0
    ensures n % U64_LIMIT == n + U64_LIMIT
  {
  }

  /** A four-digit year, and any month and day that parse, lie on their side of 1970. */
  lemma DaysByYear(date: Date)
    requires 0 <= date.y < 10_000 && 1 <= date.m <= 12 && 1 <= date.d <= 31
    ensures date.y < 1970 ==> -719_528 <= DaysFromCivil(date) < 0
    ensures date.y >= 1970 ==> 0 <= DaysFromCivil(date) <= 2_932_896
  {
    hide DaysFromCivil, YearStart;
    var y, mp := FromMarch(date);
    assert 0 <= (153 * mp + 2) / 5 <= (if date.m <= 2 then 337 else 275);
    assert date.m <= 2 ==> (153 * mp + 2) / 5 >= 306;
    if y < 0 {
      assert DaysFromCivil(date) == -146_097 + 145_731 + (153 * mp + 2) / 5 + date.d - 1 - 719_468 by {
        YearZero(date);
      }
    } else {
      DaysOfMarchDate(y, mp, date.d);
      YearStarts(y);
    }
  }

  lemma YearZero(date: Date)
    requires date.y == 0 && 1 <= date.m <= 2
    ensures DaysFromCivil(date) == -146_097 + 145_731 + (153 * (date.m + 9) + 2) / 5 + date.d - 1 - 719_468
  {
  }

  lemma YearStarts(y: nat)
    ensures y <= 1969 ==> YearStart(y) <= 719_162
    ensures y <= 1968 ==> YearStart(y) <= 718_797
    ensures y >= 1969 ==> YearStart(y) >= 719_162
    ensures y >= 1970 ==> YearStart(y) >= 719_527
    ensures y <= 9999 ==> YearStart(y) <= 3_652_059
    ensures y <= 9998 ==> YearStart(y) <= 3_651_694
    ensures YearStart(y) >= 0
  {
    assert YearStart(0) == 0 && YearStart(1968) == 718_797 && YearStart(1969) == 719_162 && YearStart(1970) == 719_527;
    assert YearStart(9998) == 3_651_694 && YearStart(9999) == 3_652_059;
    hide YearStart;
    YearStartGrows(0, y);
    if y <= 1969 { YearStartGrows(y, 1969); } else { YearStartGrows(1970, y); }
    if y <= 1968 { YearStartGrows(y, 1968); }
    if y <= 9999 { YearStartGrows(y, 9999); }
    if y <= 9998 { YearStartGrows(y, 9998); }
  }

  // --- The order of printed instants ----------------------------------------------------

  /** The year as it is printed. */
  function YearText(t: nat): string {
    CivilIsReal(t / 86_400);
    Padded(CivilFromDays(t / 86_400).y, 4)
  }

  /** Everything after the year. */
  function Tail(m: nat, d: nat, hh: nat, mm: nat, ss: nat): string {
    "-" + (Padded(m, 2) + ("-" + (Padded(d, 2) + ("T"
    + (Padded(hh, 2) + (":" + (Padded(mm, 2) + (":" + (Padded(ss, 2) + "Z")))))))))
  }

  lemma PrintIsYearAndTail(y: nat, m: nat, d: nat, hh: nat, mm: nat, ss: nat)
    ensures Print(y, m, d, hh, mm, ss) == Padded(y, 4) + Tail(m, d, hh, mm, ss)
  {
    hide Padded;
    var s := ":" + (Padded(ss, 2) + "Z");
    var n := ":" + (Padded(mm, 2) + s);
    var h := "T" + (Padded(hh, 2) + n);
    var e := "-" + (Padded(d, 2) + h);
    var year := Padded(y, 4);
    var month := year + "-" + Padded(m, 2);
    var day := month + "-" + Padded(d, 2);
    var hour := day + "T" + Padded(hh, 2);
    var minute := hour + ":" + Padded(mm, 2);
    Regroup(minute, ":", Padded(ss, 2), "Z");
    Regroup(hour, ":", Padded(mm, 2), s);
    Regroup(day, "T", Padded(hh, 2), n);
    Regroup(month, "-", Padded(d, 2), h);
    Regroup(year, "-", Padded(m, 2), e);
  }

  lemma Regroup(a: string, b: string, c: string, d: string)
    ensures a + b + c + d == a + (b + (c + d))
  {
  }

  /** A dash sorts before every digit, so years of any widths are ordered as texts. */
  lemma {:induction false} LessByYear(a: string, b: string, x: string, y: string)
    requires AllDigits(a) && AllDigits(b) && a != b && x != "" && y != "" && x[0] == y[0] == '-'
    ensures Less(a + x, b + y) <==> Less(a, b)
  {
    if a == "" {
      assert a + x == x && (b + y)[0] == b[0];
    } else if b == "" {
      assert b + y == y && (a + x)[0] == a[0];
    } else if a[0] == b[0] {
      assert (a + x)[1..] == a[1..] + x && (b + y)[1..] == b[1..] + y;
      assert a == [a[0]] + a[1..] && b == [b[0]] + b[1..];
      LessByYear(a[1..], b[1..], x, y);
    }
  }

  lemma DigitLess(front: string, other: string, m: nat, n: nat)
    requires m < 10 && n < 10 && |front| == |other|
    ensures Less(front + [Digit(m)], other + [Digit(n)]) <==> Less(front, other) || (front == other && m < n)
  {
    LessByParts(front, other, [Digit(m)], [Digit(n)]);
    assert Less([Digit(m)], [Digit(n)]) <==> m < n;
  }

  /** Numbers printed at one width sort as numbers. */
  lemma {:induction false} DecimalLess(a: nat, b: nat)
    requires a < b && |Decimal(a)| == |Decimal(b)|
    ensures Less(Decimal(a), Decimal(b))
  {
    hide Less, Decimal, Digit;
    DecimalSnoc(a);
    DecimalSnoc(b);
    if b < 10 {
      OneDigitLess(a, b);
    } else {
      if a / 10 < b / 10 { DecimalLess(a / 10, b / 10); }
      DigitLess(Decimal(a / 10), Decimal(b / 10), a % 10, b % 10);
      assert a / 10 == b / 10 ==> a % 10 < b % 10;
    }
  }

  lemma OneDigitLess(a: nat, b: nat)
    requires a < b < 10
    ensures Less([Digit(a)], [Digit(b)])
  {
  }

  lemma DecimalSnoc(n: nat)
    ensures Decimal(n) == if n < 10 then [Digit(n)] else Decimal(n / 10) + [Digit(n % 10)]
    ensures |Decimal(n)| == 1 <==> n < 10
  {
  }

  lemma {:induction false} PaddedLess(a: nat, b: nat, w: nat)
    requires a < b && |Padded(a, w)| == |Padded(b, w)|
    ensures Less(Padded(a, w), Padded(b, w))
  {
    if w == 0 {
      Unpadded(a);
      Unpadded(b);
      hide Less, Padded, Decimal;
      DecimalLess(a, b);
    } else {
      PaddedSnoc(a, w);
      PaddedSnoc(b, w);
      hide Less, Padded;
      if a / 10 < b / 10 { PaddedLess(a / 10, b / 10, w - 1); }
      DigitLess(Padded(a / 10, w - 1), Padded(b / 10, w - 1), a % 10, b % 10);
    }
  }

  lemma Unpadded(n: nat)
    ensures Padded(n, 0) == if n == 0 then "" else Decimal(n)
    ensures Decimal(n) != ""
  {
  }

  lemma PaddedSnoc(n: nat, w: nat)
    requires w > 0
    ensures Padded(n, w) == Padded(n / 10, w - 1) + [Digit(n % 10)]
  {
  }

  /** One two-digit field in front of the rest. */
  lemma FieldLess(sep: string, m: nat, n: nat, x: string, y: string)
    requires m <= n < 100
    ensures Less(sep + (Padded(m, 2) + x), sep + (Padded(n, 2) + y)) <==> m < n || Less(x, y)
  {
    hide Less, Padded;
    assert Pow10(2) == 100;
    PaddedWidth(m, 2);
    PaddedWidth(n, 2);
    LessByParts(sep, sep, Padded(m, 2) + x, Padded(n, 2) + y);
    LessIsTotal(sep, sep);
    LessByParts(Padded(m, 2), Padded(n, 2), x, y);
    LessIsTotal(Padded(m, 2), Padded(m, 2));
    if m < n {
      PaddedLess(m, n, 2);
    }
  }

  predicate FieldsInOrder(m: nat, d: nat, hh: nat, mm: nat, ss: nat, m': nat, d': nat, hh': nat, mm': nat, ss': nat) {
    m < m' || (m == m' && (d < d' || (d == d' && ClockInOrder(hh, mm, ss, hh', mm', ss'))))
  }

  predicate ClockInOrder(hh: nat, mm: nat, ss: nat, hh': nat, mm': nat, ss': nat) {
    hh < hh' || (hh == hh' && (mm < mm' || (mm == mm' && ss < ss')))
  }

  /** Five fields in lexicographic order print in lexicographic order. */
  lemma TailLess(m: nat, d: nat, hh: nat, mm: nat, ss: nat, m': nat, d': nat, hh': nat, mm': nat, ss': nat)
    requires m < 100 && d < 100 && hh < 100 && mm < 100 && ss < 100
    requires m' < 100 && d' < 100 && hh' < 100 && mm' < 100 && ss' < 100
    requires FieldsInOrder(m, d, hh, mm, ss, m', d', hh', mm', ss')
    ensures Less(Tail(m, d, hh, mm, ss), Tail(m', d', hh', mm', ss'))
  {
    hide Less, Padded;
    var s, s' := ":" + (Padded(ss, 2) + "Z"), ":" + (Padded(ss', 2) + "Z");
    var n, n' := ":" + (Padded(mm, 2) + s), ":" + (Padded(mm', 2) + s');
    var h, h' := "T" + (Padded(hh, 2) + n), "T" + (Padded(hh', 2) + n');
    var e, e' := "-" + (Padded(d, 2) + h), "-" + (Padded(d', 2) + h');
    FieldLess("-", m, m', e, e');
    if m == m' {
      FieldLess("-", d, d', h, h');
      if d == d' {
        FieldLess("T", hh, hh', n, n');
        if hh == hh' {
          FieldLess(":", mm, mm', s, s');
          if mm == mm' { FieldLess(":", ss, ss', "Z", "Z"); }
        }
      }
    }
  }

  /**
   * Of two instants the later prints lexicographically later exactly if its
   * year does, or is the same: everything after the year is always in order.
   */
  lemma LaterPrintsLater(t: nat, u: nat)
    requires t < u
    ensures Less(NowRfc3339(t), NowRfc3339(u)) <==> YearText(t) == YearText(u) || Less(YearText(t), YearText(u))
    ensures |YearText(t)| == |YearText(u)| ==> Less(NowRfc3339(t), NowRfc3339(u))
  {
    hide CivilFromDays, DaysFromCivil, RealDate, Print, Padded, Less, Tail;
    LaterFields(t, u);
    var a, b := CivilFromDays(t / 86_400), CivilFromDays(u / 86_400);
    var x, y := t % 86_400, u % 86_400;
    var p, q := Tail(a.m, a.d, x / 3600, (x / 60) % 60, x % 60), Tail(b.m, b.d, y / 3600, (y / 60) % 60, y % 60);
    PrintIsYearAndTail(a.y, a.m, a.d, x / 3600, (x / 60) % 60, x % 60);
    PrintIsYearAndTail(b.y, b.m, b.d, y / 3600, (y / 60) % 60, y % 60);
    if a.y == b.y {
      TailLess(a.m, a.d, x / 3600, (x / 60) % 60, x % 60, b.m, b.d, y / 3600, (y / 60) % 60, y % 60);
      LessByParts(YearText(t), YearText(u), p, q);
    } else {
      DifferentYears(a.y, b.y);
      TailStarts(a.m, a.d, x / 3600, (x / 60) % 60, x % 60);
      TailStarts(b.m, b.d, y / 3600, (y / 60) % 60, y % 60);
      LessByYear(YearText(t), YearText(u), p, q);
      if |YearText(t)| == |YearText(u)| { PaddedLess(a.y, b.y, 4); }
    }
  }

  lemma DifferentYears(y: nat, z: nat)
    requires y != z
    ensures Padded(y, 4) != Padded(z, 4)
  {
    assert Digits(Padded(y, 4)) == y && Digits(Padded(z, 4)) == z;
  }

  lemma TailStarts(m: nat, d: nat, hh: nat, mm: nat, ss: nat)
    ensures Tail(m, d, hh, mm, ss) != "" && Tail(m, d, hh, mm, ss)[0] == '-'
  {
    hide Padded;
  }

  /** The fields of two instants in order. */
  lemma LaterFields(t: nat, u: nat)
    requires t < u
    ensures
      var a, b := CivilFromDays(t / 86_400), CivilFromDays(u / 86_400);
      var x, y := t % 86_400, u % 86_400;
      && 0 <= a.y <= b.y && 1 <= a.m <= 12 && 1 <= b.m <= 12 && 1 <= a.d <= 31 && 1 <= b.d <= 31
      && x / 3600 <= 23 && y / 3600 <= 23
      && (a.y == b.y ==>
            FieldsInOrder(a.m, a.d, x / 3600, (x / 60) % 60, x % 60, b.m, b.d, y / 3600, (y / 60) % 60, y % 60))
  {
    hide CivilFromDays, DaysFromCivil, RealDate;
    var a, b := CivilFromDays(t / 86_400), CivilFromDays(u / 86_400);
    CivilIsReal(t / 86_400);
    CivilIsReal(u / 86_400);
    InYear(a);
    InYear(b);
    ClockOf(t % 86_400);
    ClockOf(u % 86_400);
    if t / 86_400 < u / 86_400 {
      if Earlier(b, a) {
        EarlierDays(b, a);
      }
      assert Earlier(a, b);
    } else {
      ClockBefore(t % 86_400, u % 86_400);
    }
  }

  lemma ClockBefore(x: nat, y: nat)
    requires x < y < 86_400
    ensures ClockInOrder(x / 3600, (x / 60) % 60, x % 60, y / 3600, (y / 60) % 60, y % 60)
  {
    ClockOf(x);
    ClockOf(y);
    ClockFields(x / 3600, (x / 60) % 60, x % 60, y / 3600, (y / 60) % 60, y % 60);
  }

  lemma ClockFields(hh: nat, mm: nat, ss: nat, hh': nat, mm': nat, ss': nat)
    requires mm < 60 && ss < 60 && mm' < 60 && ss' < 60
    requires hh * 3600 + mm * 60 + ss < hh' * 3600 + mm' * 60 + ss'
    ensures ClockInOrder(hh, mm, ss, hh', mm', ss')
  {
  }

  /** So up to the year 9999 printed instants sort as instants. */
  lemma FourDigitsSort(t: nat, u: nat)
    requires t < u < YEAR_10000
    ensures Less(NowRfc3339(t), NowRfc3339(u))
  {
    hide CivilFromDays, NowRfc3339, Padded;
    FourDigitYears(t);
    FourDigitYears(u);
    CivilIsReal(t / 86_400);
    CivilIsReal(u / 86_400);
    assert Pow10(4) == 10_000;
    PaddedWidth(CivilFromDays(t / 86_400).y, 4);
    PaddedWidth(CivilFromDays(u / 86_400).y, 4);
    LaterPrintsLater(t, u);
  }

  /** But the year 10000 sorts before the year 9999. */
  lemma Year10000SortsFirst()
    ensures Less(NowRfc3339(YEAR_10000), NowRfc3339(YEAR_10000 - 1))
  {
    var t: nat, u: nat := YEAR_10000 - 1, YEAR_10000;
    assert YearText(t) == "9999" && YearText(u) == "10000" by {
      TurnOfTheYear();
      FourDigits();
      FiveDigits();
      hide CivilFromDays, Padded;
      assert t / 86_400 == 2_932_896 && u / 86_400 == 2_932_897;
    }
    assert !Less("9999", "10000");
    hide NowRfc3339, YearText, Less;
    LaterPrintsLater(t, u);
    LessIsTotal(NowRfc3339(t), NowRfc3339(u));
    PrintedApart(t, u);
  }

  lemma TurnOfTheYear()
    ensures CivilFromDays(2_932_896).y == 9999 && CivilFromDays(2_932_897).y == 10_000
  {
    var last, next := Date(9999, 12, 31), Date(10_000, 1, 1);
    assert DaysFromCivil(last) == 2_932_896 && DaysFromCivil(next) == 2_932_897;
    assert RealDate(last) && RealDate(next);
    hide CivilFromDays, DaysFromCivil, RealDate;
    RealComesBack(last);
    RealComesBack(next);
  }

  lemma FourDigits()
    ensures Padded(9999, 4) == "9999"
  {
    hide Padded, Decimal, Digit, Digits, AllDigits;
    FirstDigits();
    WithLastDigit(0, 9, 1); WithLastDigit(9, 9, 2); WithLastDigit(99, 9, 3); WithLastDigit(999, 9, 4);
  }

  lemma FiveDigits()
    ensures Padded(10_000, 4) == "10000"
  {
    hide Padded, Decimal, Digit, Digits, AllDigits;
    FirstDigits();
    WithLastDigit(1, 0, 1); WithLastDigit(10, 0, 2); WithLastDigit(100, 0, 3); WithLastDigit(1000, 0, 4);
  }

  lemma FirstDigits()
    ensures Padded(0, 0) == "" && Padded(1, 0) == "1" && [Digit(0)] == "0" && [Digit(9)] == "9"
  {
    DecimalSnoc(1);
  }

  lemma WithLastDigit(n: nat, d: nat, w: nat)
    requires w > 0 && d < 10
    ensures Padded(10 * n + d, w) == Padded(n, w - 1) + [Digit(d)]
  {
    PaddedSnoc(10 * n + d, w);
    hide Padded, Digit;
    assert (10 * n + d) / 10 == n && (10 * n + d) % 10 == d;
  }

  lemma PrintedApart(t: nat, u: nat)
    requires YearText(t) != YearText(u) && |YearText(t)| < |YearText(u)|
    ensures NowRfc3339(t) != NowRfc3339(u)
  {
    hide CivilFromDays, Padded;
    CivilIsReal(t / 86_400);
    CivilIsReal(u / 86_400);
    var a, b := CivilFromDays(t / 86_400), CivilFromDays(u / 86_400);
    var x, y := t % 86_400, u % 86_400;
    PrintIsYearAndTail(a.y, a.m, a.d, x / 3600, (x / 60) % 60, x % 60);
    PrintIsYearAndTail(b.y, b.m, b.d, y / 3600, (y / 60) % 60, y % 60);
    TailStarts(a.m, a.d, x / 3600, (x / 60) % 60, x % 60);
    assert NowRfc3339(t)[|YearText(t)|] == '-';
    assert NowRfc3339(u)[|YearText(t)|] == YearText(u)[|YearText(t)|];
    assert IsDigit(YearText(u)[|YearText(t)|]);
  }
}
