/** Record timestamps: `journal_time` and `record_time` of the recovery records. */
module Timestamps {
  import opened JsonGrammar
  import opened Decimal
  import opened Strings
  import Semver

  /** A UTC time of the Gregorian calendar. */
  datatype Moment = Moment(year: nat, month: nat, day: nat, hour: nat, minute: nat, second: nat, millis: nat)

  predicate IsLeap(year: nat) {
    year % 4 == 0 && (year % 100 != 0 || year % 400 == 0)
  }

  function MonthDays(year: nat, month: nat): nat {
    if month == 2 then if IsLeap(year) then 29 else 28
    else if month == 4 || month == 6 || month == 9 || month == 11 then 30
    else 31
  }

  predicate Real(m: Moment) {
    && 1 <= m.year <= 9999 && 1 <= m.month <= 12 && 1 <= m.day <= MonthDays(m.year, m.month)
    && m.hour <= 23 && m.minute <= 59 && m.second <= 59 && m.millis <= 999
  }

  // ----- elapsed time -----

  /** Days before the first of January of a year, and of the first of a month. */
  function DaysBeforeYear(year: nat): nat {
    if year <= 1 then 0 else DaysBeforeYear(year - 1) + if IsLeap(year - 1) then 366 else 365
  }

  function DaysBeforeMonth(year: nat, month: nat): nat {
    if month <= 1 then 0 else DaysBeforeMonth(year, month - 1) + MonthDays(year, month - 1)
  }

  /** Milliseconds since the start of year 1. */
  function Elapsed(m: Moment): nat
    requires Real(m)
  {
    var days := DaysBeforeYear(m.year) + DaysBeforeMonth(m.year, m.month) + (m.day - 1);
    (((days * 24 + m.hour) * 60 + m.minute) * 60 + m.second) * 1000 + m.millis
  }

  lemma {:induction false} MonthsGrow(year: nat, a: nat, b: nat)
    requires 1 <= a < b <= 12
    ensures DaysBeforeMonth(year, a) + MonthDays(year, a) <= DaysBeforeMonth(year, b)
    decreases b
  {
    if a + 1 < b { MonthsGrow(year, a, b - 1); }
  }

  lemma YearHasItsMonths(year: nat)
    ensures DaysBeforeMonth(year, 12) + 31 == if IsLeap(year) then 366 else 365
  {
    assert DaysBeforeMonth(year, 1) == 0;
    assert DaysBeforeMonth(year, 2) == 31;
    assert DaysBeforeMonth(year, 3) == 31 + MonthDays(year, 2);
    assert DaysBeforeMonth(year, 4) == DaysBeforeMonth(year, 3) + 31;
    assert DaysBeforeMonth(year, 5) == DaysBeforeMonth(year, 4) + 30;
    assert DaysBeforeMonth(year, 6) == DaysBeforeMonth(year, 5) + 31;
    assert DaysBeforeMonth(year, 7) == DaysBeforeMonth(year, 6) + 30;
    assert DaysBeforeMonth(year, 8) == DaysBeforeMonth(year, 7) + 31;
    assert DaysBeforeMonth(year, 9) == DaysBeforeMonth(year, 8) + 31;
    assert DaysBeforeMonth(year, 10) == DaysBeforeMonth(year, 9) + 30;
    assert DaysBeforeMonth(year, 11) == DaysBeforeMonth(year, 10) + 31;
    assert DaysBeforeMonth(year, 12) == DaysBeforeMonth(year, 11) + 30;
  }

  lemma {:induction false} YearsGrow(a: nat, b: nat)
    requires 1 <= a < b
    ensures DaysBeforeYear(a) + (if IsLeap(a) then 366 else 365) <= DaysBeforeYear(b)
    decreases b
  {
    if a + 1 < b { YearsGrow(a, b - 1); }
  }

  function DayOf(m: Moment): nat
    requires Real(m)
  {
    DaysBeforeYear(m.year) + DaysBeforeMonth(m.year, m.month) + (m.day - 1)
  }

  /** Days count up with the date. */
  lemma DateOrder(a: Moment, b: Moment)
    requires Real(a) && Real(b)
    requires a.year < b.year || (a.year == b.year && (a.month < b.month || (a.month == b.month && a.day < b.day)))
    ensures DayOf(a) < DayOf(b)
  {
    if a.year < b.year {
      YearsGrow(a.year, b.year);
      YearHasItsMonths(a.year);
      if a.month < 12 { MonthsGrow(a.year, a.month, 12); }
    } else if a.month < b.month {
      MonthsGrow(a.year, a.month, b.month);
    }
  }

  /** Comparison field by field. */
  function FieldOrder(a: Moment, b: Moment): int {
    Then(SignOf(a.year - b.year), Then(SignOf(a.month - b.month), Then(SignOf(a.day - b.day),
      Then(SignOf(a.hour - b.hour), Then(SignOf(a.minute - b.minute), Then(SignOf(a.second - b.second), SignOf(a.millis - b.millis)))))))
  }

  lemma FieldOrderIsElapsed(a: Moment, b: Moment)
    requires Real(a) && Real(b)
    ensures FieldOrder(a, b) == SignOf(Elapsed(a) - Elapsed(b))
  {
    hide DaysBeforeYear, DaysBeforeMonth, MonthDays;
    var dates := Then(SignOf(a.year - b.year), Then(SignOf(a.month - b.month), SignOf(a.day - b.day)));
    if dates < 0 { DateOrder(a, b); } else if dates > 0 { DateOrder(b, a); }
    assert dates == SignOf(DayOf(a) - DayOf(b));
    ClockOrder(DayOf(a), DayOf(b), a, b);
    var clock := Then(SignOf(a.hour - b.hour), Then(SignOf(a.minute - b.minute), Then(SignOf(a.second - b.second), SignOf(a.millis - b.millis))));
    assert FieldOrder(a, b) == Then(dates, clock);
  }

  lemma ClockOrder(x: nat, y: nat, a: Moment, b: Moment)
    requires a.hour <= 23 && a.minute <= 59 && a.second <= 59 && a.millis <= 999
    requires b.hour <= 23 && b.minute <= 59 && b.second <= 59 && b.millis <= 999
    ensures var s := (((x * 24 + a.hour) * 60 + a.minute) * 60 + a.second) * 1000 + a.millis;
            var t := (((y * 24 + b.hour) * 60 + b.minute) * 60 + b.second) * 1000 + b.millis;
            SignOf(s - t) == Then(SignOf(x - y), Then(SignOf(a.hour - b.hour), Then(SignOf(a.minute - b.minute),
                             Then(SignOf(a.second - b.second), SignOf(a.millis - b.millis)))))
  {}

  // ----- the fixed-width text -----

  /** `%0<w>u` for a value of at most `w` digits. */
  function Padded(n: nat, w: nat): (s: string)
    ensures |s| == w
  {
    if w == 0 then "" else Padded(n / 10, w - 1) + [('0' as int + n % 10) as char]
  }

  lemma {:induction false} PaddedValue(n: nat, w: nat)
    requires n < Pow10(w)
    ensures Digits(Padded(n, w)) && NatOf(Padded(n, w)) == n
  {
    if w > 0 {
      PaddedValue(n / 10, w - 1);
      var s := Padded(n, w);
      assert s[..|s| - 1] == Padded(n / 10, w - 1);
    }
  }

  lemma {:induction false} PaddedOf(s: string)
    requires Digits(s)
    ensures Padded(NatOf(s), |s|) == s
  {
    if s != "" {
      var t := s[..|s| - 1];
      PaddedOf(t);
      var d := DigitValue(s[|s| - 1]);
      assert (NatOf(t) * 10 + d) / 10 == NatOf(t) && (NatOf(t) * 10 + d) % 10 == d;
      assert s == t + [s[|s| - 1]];
    }
  }

  function Clock(m: Moment): string {
    Padded(m.hour, 2) + (":" + (Padded(m.minute, 2) + (":" + (Padded(m.second, 2) + ("." + (Padded(m.millis, 3) + "Z"))))))
  }

  /** `journal_time` */
  function Stamp(m: Moment): string {
    Padded(m.year, 4) + ("-" + (Padded(m.month, 2) + ("-" + (Padded(m.day, 2) + ("T" + Clock(m))))))
  }

  lemma FieldAt(w: string, sep: char, t: string, s: string, p: nat)
    requires p <= |s| && s[p..] == w + ([sep] + t)
    ensures p + |w| < |s| && s[p..p + |w|] == w && s[p + |w|] == sep && s[p + |w| + 1..] == t
  {
    var u := s[p..];
    assert u[..|w|] == w && u[|w|] == sep && u[|w| + 1..] == t;
  }

  lemma ClockFields(m: Moment, s: string)
    requires |s| >= 11 && s[11..] == Clock(m)
    ensures && |s| == 24
            && s[11..13] == Padded(m.hour, 2) && s[14..16] == Padded(m.minute, 2) && s[17..19] == Padded(m.second, 2)
            && s[20..23] == Padded(m.millis, 3) && s[13] == ':' && s[16] == ':' && s[19] == '.' && s[23] == 'Z'
  {
    hide Padded;
    var t6 := Padded(m.millis, 3) + "Z";
    var t5 := Padded(m.second, 2) + ("." + t6);
    var t4 := Padded(m.minute, 2) + (":" + t5);
    FieldAt(Padded(m.hour, 2), ':', t4, s, 11);
    FieldAt(Padded(m.minute, 2), ':', t5, s, 14);
    FieldAt(Padded(m.second, 2), '.', t6, s, 17);
    assert t6 == Padded(m.millis, 3) + ("Z" + "");
    FieldAt(Padded(m.millis, 3), 'Z', "", s, 20);
  }

  lemma DateFields(m: Moment, s: string, t: string)
    requires s == Padded(m.year, 4) + ("-" + (Padded(m.month, 2) + ("-" + (Padded(m.day, 2) + ("T" + t)))))
    ensures && |s| >= 11 && s[11..] == t
            && s[..4] == Padded(m.year, 4) && s[5..7] == Padded(m.month, 2) && s[8..10] == Padded(m.day, 2)
            && s[4] == '-' && s[7] == '-' && s[10] == 'T'
  {
    hide Padded;
    var t2 := Padded(m.day, 2) + ("T" + t);
    var t1 := Padded(m.month, 2) + ("-" + t2);
    assert s[0..] == s;
    FieldAt(Padded(m.year, 4), '-', t1, s, 0);
    FieldAt(Padded(m.month, 2), '-', t2, s, 5);
    FieldAt(Padded(m.day, 2), 'T', t, s, 8);
  }

  /** The fields and separators of a stamp. */
  lemma StampFields(m: Moment)
    ensures var s := Stamp(m);
            && |s| == 24
            && s[..4] == Padded(m.year, 4) && s[5..7] == Padded(m.month, 2) && s[8..10] == Padded(m.day, 2)
            && s[11..13] == Padded(m.hour, 2) && s[14..16] == Padded(m.minute, 2) && s[17..19] == Padded(m.second, 2)
            && s[20..23] == Padded(m.millis, 3)
            && s[4] == '-' && s[7] == '-' && s[10] == 'T' && s[13] == ':' && s[16] == ':' && s[19] == '.' && s[23] == 'Z'
  {
    hide Padded, Clock;
    DateFields(m, Stamp(m), Clock(m));
    ClockFields(m, Stamp(m));
  }

  lemma {:induction false} CompareParts(a: string, b: string, x: string, y: string)
    requires |a| == |b|
    ensures Compare(a + x, b + y) == Then(Compare(a, b), Compare(x, y))
  {
    if a == "" {
      assert b == "" && a + x == x && b + y == y;
    } else {
      assert (a + x)[1..] == a[1..] + x && (b + y)[1..] == b[1..] + y;
      CompareParts(a[1..], b[1..], x, y);
    }
  }

  /** A numeric field and its separator. */
  lemma ComparePadded(m: nat, n: nat, w: nat, sep: string, x: string, y: string)
    requires m < Pow10(w) && n < Pow10(w)
    ensures Compare(Padded(m, w) + (sep + x), Padded(n, w) + (sep + y)) == Then(SignOf(m - n), Compare(x, y))
  {
    hide Padded, Pow10, NatOf, Compare;
    PaddedValue(m, w);
    PaddedValue(n, w);
    Semver.SameLength(Padded(m, w), Padded(n, w));
    CompareParts(Padded(m, w), Padded(n, w), sep + x, sep + y);
    CompareParts(sep, sep, x, y);
    CompareEqual(sep, sep);
  }

  /** On stamps, byte order is the order by elapsed time. */
  lemma StampOrder(a: Moment, b: Moment)
    requires Real(a) && Real(b)
    ensures Compare(Stamp(a), Stamp(b)) == SignOf(Elapsed(a) - Elapsed(b))
  {
    hide Padded, Compare, Elapsed;
    Powers();
    hide Pow10;
    var x6, y6 := "Z", "Z";
    CompareEqual(x6, y6);
    var x5, y5 := Padded(a.millis, 3) + "Z", Padded(b.millis, 3) + "Z";
    assert x5 == Padded(a.millis, 3) + ("Z" + "") && y5 == Padded(b.millis, 3) + ("Z" + "");
    CompareEqual("", "");
    ComparePadded(a.millis, b.millis, 3, "Z", "", "");
    var x4, y4 := Padded(a.second, 2) + ("." + x5), Padded(b.second, 2) + ("." + y5);
    ComparePadded(a.second, b.second, 2, ".", x5, y5);
    var x3, y3 := Padded(a.minute, 2) + (":" + x4), Padded(b.minute, 2) + (":" + y4);
    ComparePadded(a.minute, b.minute, 2, ":", x4, y4);
    var x2, y2 := Padded(a.hour, 2) + (":" + x3), Padded(b.hour, 2) + (":" + y3);
    ComparePadded(a.hour, b.hour, 2, ":", x3, y3);
    var x1, y1 := Padded(a.day, 2) + ("T" + x2), Padded(b.day, 2) + ("T" + y2);
    ComparePadded(a.day, b.day, 2, "T", x2, y2);
    var x0, y0 := Padded(a.month, 2) + ("-" + x1), Padded(b.month, 2) + ("-" + y1);
    ComparePadded(a.month, b.month, 2, "-", x1, y1);
    ComparePadded(a.year, b.year, 4, "-", x0, y0);
    FieldOrderIsElapsed(a, b);
  }

  lemma Powers()
    ensures Pow10(2) == 100 && Pow10(3) == 1000 && Pow10(4) == 10000
  {
    assert Pow10(1) == 10;
  }

  // ----- record_time -----

  const POSITIONS: seq<nat> := [4, 7, 10, 13, 16, 19, 23]
  const SEPARATORS: string := "--T::.Z"

  /** Digits with the separators in their places. */
  predicate Shaped(s: string) {
    && |s| == 24
    && s[4] == '-' && s[7] == '-' && s[10] == 'T' && s[13] == ':' && s[16] == ':' && s[19] == '.' && s[23] == 'Z'
    && Digits(s[..4]) && Digits(s[5..7]) && Digits(s[8..10]) && Digits(s[11..13]) && Digits(s[14..16]) && Digits(s[17..19])
    && Digits(s[20..23])
  }

  function MomentOf(s: string): Moment
    requires Shaped(s)
  {
    Moment(NatOf(s[..4]), NatOf(s[5..7]), NatOf(s[8..10]), NatOf(s[11..13]), NatOf(s[14..16]), NatOf(s[17..19]), NatOf(s[20..23]))
  }

  /** What a stamp says, and that nothing else says it. */
  lemma StampInverse(m: Moment, s: string)
    requires Real(m)
    ensures Stamp(m) == s <==> Shaped(s) && MomentOf(s) == m
  {
    StampFields(m);
    Powers();
    hide Padded, NatOf, Pow10;
    PaddedValue(m.year, 4);
    PaddedValue(m.month, 2);
    PaddedValue(m.day, 2);
    PaddedValue(m.hour, 2);
    PaddedValue(m.minute, 2);
    PaddedValue(m.second, 2);
    PaddedValue(m.millis, 3);
    if Shaped(s) && MomentOf(s) == m { ShapedIsStamp(s); }
  }

  lemma ShapedIsStamp(s: string)
    requires Shaped(s)
    ensures Stamp(MomentOf(s)) == s
  {
    PaddedOf(s[..4]);
    PaddedOf(s[5..7]);
    PaddedOf(s[8..10]);
    PaddedOf(s[11..13]);
    PaddedOf(s[14..16]);
    PaddedOf(s[17..19]);
    PaddedOf(s[20..23]);
    hide Padded, NatOf, Digits;
    Pieces(s);
  }

  lemma Pieces(s: string)
    requires |s| == 24
    requires s[4] == '-' && s[7] == '-' && s[10] == 'T' && s[13] == ':' && s[16] == ':' && s[19] == '.' && s[23] == 'Z'
    ensures s == s[..4] + ("-" + (s[5..7] + ("-" + (s[8..10] + ("T" + (s[11..13] + (":" + (s[14..16] + (":" + (s[17..19] + ("."
                 + (s[20..23] + "Z"))))))))))))
  {
    assert s[20..] == s[20..23] + "Z";
    assert s[17..] == s[17..19] + ("." + s[20..]);
    assert s[14..] == s[14..16] + (":" + s[17..]);
    assert s[11..] == s[11..13] + (":" + s[14..]);
    assert s[8..] == s[8..10] + ("T" + s[11..]);
    assert s[5..] == s[5..7] + ("-" + s[8..]);
    assert s == s[..4] + ("-" + s[5..]);
  }

  /** The stamps of real moments. */
  ghost predicate IsStamp(s: string) {
    exists m :: Real(m) && Stamp(m) == s
  }

  /** The digits at `p` and their value, as `atoi` reads them. */
  method Number(text: string, p: nat, n: nat) returns (value: nat)
    requires p + n <= |text| && Digits(text[p..p + n])
    ensures value == NatOf(text[p..p + n])
  {
    value := 0;
    assert text[p..p] == "";
    for i := 0 to n
      invariant Digits(text[p..p + i]) && value == NatOf(text[p..p + i])
    {
      var next := text[p..p + i + 1];
      assert next[..|next| - 1] == text[p..p + i] && next[|next| - 1] == text[p + i];
      assert text[p + i] in text[p..p + n];
      assert forall c :: c in next ==> c in text[p..p + n];
      value := value * 10 + DigitValue(text[p + i]);
    }
    assert text[p..p + n] == text[p..p + n];
  }

  /** Whether a byte at `i` is right: a separator in its place, else a digit. */
  predicate Fitting(i: nat, c: char) {
    if i == 4 || i == 7 then c == '-'
    else if i == 10 then c == 'T'
    else if i == 13 || i == 16 then c == ':'
    else if i == 19 then c == '.'
    else if i == 23 then c == 'Z'
    else IsDigit(c)
  }

  predicate DigitPlace(i: nat) {
    i != 4 && i != 7 && i != 10 && i != 13 && i != 16 && i != 19 && i != 23
  }

  lemma ShapedIsFitting(s: string)
    requires |s| == 24
    ensures Shaped(s) <==> forall i :: 0 <= i < 24 ==> Fitting(i, s[i])
  {
    if forall i :: 0 <= i < 24 ==> Fitting(i, s[i]) {
      assert Fitting(4, s[4]) && Fitting(7, s[7]) && Fitting(10, s[10]) && Fitting(13, s[13]) && Fitting(16, s[16]) && Fitting(19, s[19]) && Fitting(23, s[23]);
      FittingDigits(s, 0, 4);
      FittingDigits(s, 5, 7);
      FittingDigits(s, 8, 10);
      FittingDigits(s, 11, 13);
      FittingDigits(s, 14, 16);
      FittingDigits(s, 17, 19);
      FittingDigits(s, 20, 23);
      assert s[0..4] == s[..4];
    }
    if Shaped(s) {
      forall i | 0 <= i < 24 ensures Fitting(i, s[i]) {
        if i < 4 { assert s[i] in s[..4]; }
        else if 5 <= i < 7 { assert s[i] in s[5..7]; }
        else if 8 <= i < 10 { assert s[i] in s[8..10]; }
        else if 11 <= i < 13 { assert s[i] in s[11..13]; }
        else if 14 <= i < 16 { assert s[i] in s[14..16]; }
        else if 17 <= i < 19 { assert s[i] in s[17..19]; }
        else if 20 <= i < 23 { assert s[i] in s[20..23]; }
      }
    }
  }

  lemma FittingDigits(s: string, a: nat, b: nat)
    requires |s| == 24 && a <= b <= 24 && forall i :: 0 <= i < 24 ==> Fitting(i, s[i])
    requires forall i :: a <= i < b ==> DigitPlace(i)
    ensures Digits(s[a..b])
  {
    forall c | c in s[a..b] ensures IsDigit(c) {
      var k :| 0 <= k < b - a && s[a..b][k] == c;
      assert DigitPlace(a + k) && Fitting(a + k, s[a + k]);
    }
  }

  method RightByte(text: string, i: nat) returns (ok: bool)
    requires |text| == 24 && i < 24
    ensures ok == Fitting(i, text[i])
  {
    var separator := false;
    var j := 0;
    while j < 7
      invariant 0 <= j <= 7
      invariant separator <==> i in POSITIONS[..j]
      invariant separator ==> Fitting(i, text[i])
    {
      assert POSITIONS[..j + 1] == POSITIONS[..j] + [POSITIONS[j]];
      if POSITIONS[j] == i {
        if text[i] != SEPARATORS[j] { return false; }
        separator := true;
      }
      j := j + 1;
    }
    assert POSITIONS[..7] == POSITIONS;
    ok := separator || IsDigit(text[i]);
  }

  /** `record_time`: accepts exactly the stamps of real moments. */
  method RecordTime(text: string) returns (ok: bool)
    ensures ok <==> IsStamp(text)
  {
    hide Digits, NatOf, Stamp, Real, IsLeap, MonthDays, Fitting;
    if IsStamp(text) { StampIsShaped(text); }
    if |text| != 24 { return false; }
    ShapedIsFitting(text);
    for i := 0 to 24
      invariant forall k :: 0 <= k < i ==> Fitting(k, text[k])
    {
      ok := RightByte(text, i);
      if !ok { return; }
    }
    assert text[0..4] == text[..4];
    var year := Number(text, 0, 4);
    var month := Number(text, 5, 2);
    var day := Number(text, 8, 2);
    var hour := Number(text, 11, 2);
    var minute := Number(text, 14, 2);
    var second := Number(text, 17, 2);
    ok := CheckDate(year, month, day, hour, minute, second);
    ShapedBounds(text);
    if Real(MomentOf(text)) { StampInverse(MomentOf(text), text); }
  }

  method CheckDate(year: nat, month: nat, day: nat, hour: nat, minute: nat, second: nat) returns (ok: bool)
    ensures year <= 9999 ==> forall millis: nat :: millis <= 999 ==> ok == Real(Moment(year, month, day, hour, minute, second, millis))
  {
    if year == 0 || month < 1 || month > 12 || day < 1 || hour > 23 || minute > 59 || second > 59 { return false; }
    var days := if month == 2 then 28 + (if year % 4 == 0 && (year % 100 != 0 || year % 400 == 0) then 1 else 0)
                else if month == 4 || month == 6 || month == 9 || month == 11 then 30 else 31;
    ok := day <= days;
  }

  lemma StampIsShaped(s: string)
    requires IsStamp(s)
    ensures Shaped(s) && Real(MomentOf(s))
  {
    hide Stamp, Real, Shaped;
    var m :| Real(m) && Stamp(m) == s;
    StampInverse(m, s);
  }

  lemma ShapedBounds(s: string)
    requires Shaped(s)
    ensures MomentOf(s).year <= 9999 && MomentOf(s).millis <= 999
  {
    Powers();
    hide NatOf, Pow10;
    NatOfBound(s[..4]);
    NatOfBound(s[20..23]);
  }

  /** On accepted strings the byte-wise comparison of creation and update is the
      order by elapsed milliseconds. */
  lemma TimeOrder(s: string, t: string)
    requires IsStamp(s) && IsStamp(t)
    ensures Shaped(s) && Shaped(t) && Real(MomentOf(s)) && Real(MomentOf(t))
    ensures Compare(s, t) == SignOf(Elapsed(MomentOf(s)) - Elapsed(MomentOf(t)))
  {
    StampIsShaped(s);
    StampIsShaped(t);
    hide Shaped, Real, Stamp, Elapsed, Compare;
    StampInverse(MomentOf(s), s);
    StampInverse(MomentOf(t), t);
    StampOrder(MomentOf(s), MomentOf(t));
  }

  /** The Gregorian rule in closed form: every fourth year, but of the centuries
      only every fourth. */
  lemma {:induction false} DaysInClosedForm(year: nat)
    requires year >= 1
    ensures var y := year - 1; DaysBeforeYear(year) == 365 * y + y / 4 - y / 100 + y / 400
  {
    if year > 1 {
      DaysInClosedForm(year - 1);
      LeapStep(year - 1);
    }
  }

  lemma LeapStep(y: nat)
    requires y >= 1
    ensures y / 4 == (y - 1) / 4 + (if y % 4 == 0 then 1 else 0)
    ensures y / 100 == (y - 1) / 100 + (if y % 100 == 0 then 1 else 0)
    ensures y / 400 == (y - 1) / 400 + (if y % 400 == 0 then 1 else 0)
    ensures y % 400 == 0 ==> y % 100 == 0
    ensures y % 100 == 0 ==> y % 4 == 0
  {}
}
