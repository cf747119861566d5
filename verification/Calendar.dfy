/** Unix time to the access log's time stamp. */
module Calendar {
  import opened Common
  import opened Ascii

  /** Month from 0, day from 1. */
  datatype Fields = Fields(day: nat, month: nat, year: nat, hour: nat, minute: nat, second: nat)

  predicate IsLeap(y: nat) { y % 4 == 0 && (y % 100 != 0 || y % 400 == 0) }

  function DaysInMonth(month: nat, year: nat): nat {
    if month in {0, 2, 4, 6, 7, 9, 11} then 31
    else if month in {3, 5, 8, 10} then 30
    else if month == 1 then if IsLeap(year) then 29 else 28
    else 30
  }

  function DaysInYear(year: nat): nat { if IsLeap(year) then 366 else 365 }

  // ---- The Gregorian day count, in closed form ----

  /** The leap years before a year. */
  function LeapsBefore(year: nat): int { (year + 3) / 4 - (year + 99) / 100 + (year + 399) / 400 }

  /** The days from 1970-01-01 to January 1st of a year. */
  function DaysToYear(year: nat): int { 365 * (year - 1970) + LeapsBefore(year) - LeapsBefore(1970) }

  const MONTH_STARTS: seq<nat> := [0, 31, 59, 90, 120, 151, 181, 212, 243, 273, 304, 334]

  function DaysToMonth(month: nat, year: nat): nat
    requires month < 12
  {
    MONTH_STARTS[month] + (if month >= 2 && IsLeap(year) then 1 else 0)
  }

  predicate Valid(f: Fields) {
    && f.month < 12 && 1 <= f.day <= DaysInMonth(f.month, f.year)
    && f.hour < 24 && f.minute < 60 && f.second < 60
  }

  function DayNumber(f: Fields): int
    requires f.month < 12
  {
    DaysToYear(f.year) + DaysToMonth(f.month, f.year) + f.day - 1
  }

  /** The Unix time of a date and time of day. */
  function UnixTime(f: Fields): int
    requires f.month < 12
  {
    DayNumber(f) * 86400 + f.hour * 3600 + f.minute * 60 + f.second
  }

  lemma Multiples(y: nat)
    ensures (y + 4) / 4 == (y + 3) / 4 + (if y % 4 == 0 then 1 else 0)
    ensures (y + 100) / 100 == (y + 99) / 100 + (if y % 100 == 0 then 1 else 0)
    ensures (y + 400) / 400 == (y + 399) / 400 + (if y % 400 == 0 then 1 else 0)
  {
    MultiplesOf(y, 4);
    MultiplesOf(y, 100);
    MultiplesOf(y, 400);
  }

  lemma MultiplesOf(y: nat, d: nat)
    requires d in {4, 100, 400}
    ensures (y + d) / d == (y + d - 1) / d + (if y % d == 0 then 1 else 0)
  {
    if d == 4 {
      MultiplesOf4(y);
    } else if d == 100 {
      MultiplesOf100(y);
    } else {
      MultiplesOf400(y);
    }
  }

  lemma MultiplesOf4(y: nat)
    ensures (y + 4) / 4 == (y + 3) / 4 + (if y % 4 == 0 then 1 else 0)
  {
  }

  lemma MultiplesOf100(y: nat)
    ensures (y + 100) / 100 == (y + 99) / 100 + (if y % 100 == 0 then 1 else 0)
  {
  }

  lemma MultiplesOf400(y: nat)
    ensures (y + 400) / 400 == (y + 399) / 400 + (if y % 400 == 0 then 1 else 0)
  {
  }

  lemma NestedMultiples(y: nat)
    ensures y % 100 == 0 ==> y % 4 == 0
    ensures y % 400 == 0 ==> y % 100 == 0
  {
    if y % 100 == 0 { MultipleOfFour(y, 25 * (y / 100)); }
    if y % 400 == 0 { MultipleOfHundred(y, 4 * (y / 400)); }
  }

  lemma MultipleOfFour(y: nat, q: nat)
    requires y == 4 * q
    ensures y % 4 == 0
  {
  }

  lemma MultipleOfHundred(y: nat, q: nat)
    requires y == 100 * q
    ensures y % 100 == 0
  {
  }

  lemma NextLeap(year: nat)
    ensures LeapsBefore(year + 1) == LeapsBefore(year) + (if IsLeap(year) then 1 else 0)
  {
    Multiples(year);
    NestedMultiples(year);
    assert (year + 1 + 3) / 4 == (year + 4) / 4 && (year + 1 + 99) / 100 == (year + 100) / 100;
    assert (year + 1 + 399) / 400 == (year + 400) / 400;
  }

  lemma NextYear(year: nat)
    ensures DaysToYear(year + 1) == DaysToYear(year) + DaysInYear(year)
  {
    NextLeap(year);
    hide LeapsBefore, IsLeap;
  }

  lemma NextMonth(month: nat, year: nat)
    requires month < 12
    ensures DaysToMonth(month, year) + DaysInMonth(month, year)
         == if month == 11 then DaysInYear(year) else DaysToMonth(month + 1, year)
  {
  }

  lemma {:induction false} YearsGrow(a: nat, b: nat)
    requires a <= b
    ensures DaysToYear(a) <= DaysToYear(b)
    decreases b
  {
    hide DaysToYear;
    if a < b {
      YearsGrow(a, b - 1);
      NextYear(b - 1);
    }
  }

  lemma {:induction false} MonthsGrow(a: nat, b: nat, year: nat)
    requires a <= b < 12
    ensures DaysToMonth(a, year) <= DaysToMonth(b, year)
    decreases b
  {
    hide DaysToMonth;
    if a < b {
      MonthsGrow(a, b - 1, year);
      NextMonth(b - 1, year);
    }
  }

  /** A valid date lies inside its year. */
  lemma InsideItsYear(f: Fields)
    requires Valid(f)
    ensures DaysToYear(f.year) <= DayNumber(f) < DaysToYear(f.year + 1)
  {
    NextYear(f.year);
    NextMonth(f.month, f.year);
    hide DaysToYear;
    if f.month < 11 {
      MonthsGrow(f.month + 1, 11, f.year);
      NextMonth(11, f.year);
    }
  }

  lemma YearsInOrder(f: Fields, g: Fields)
    requires Valid(f) && Valid(g) && DayNumber(f) == DayNumber(g)
    ensures f.year <= g.year
  {
    InsideItsYear(f);
    InsideItsYear(g);
    hide DaysToYear, DayNumber, Valid;
    var next: nat := g.year + 1;
    if next <= f.year { YearsGrow(next, f.year); }
  }

  lemma MonthsInOrder(f: Fields, g: Fields)
    requires Valid(f) && Valid(g) && f.year == g.year && DayNumber(f) == DayNumber(g)
    ensures f.month <= g.month
  {
    NextMonth(g.month, g.year);
    hide DaysToYear, DaysToMonth, DaysInMonth;
    var next: nat := g.month + 1;
    if next <= f.month { MonthsGrow(next, f.month, f.year); }
  }

  /** The same day number means the same year, month and day. */
  lemma SameDay(f: Fields, g: Fields)
    requires Valid(f) && Valid(g) && DayNumber(f) == DayNumber(g)
    ensures f.year == g.year && f.month == g.month && f.day == g.day
  {
    YearsInOrder(f, g);
    YearsInOrder(g, f);
    MonthsInOrder(f, g);
    MonthsInOrder(g, f);
    hide DaysToYear, DaysToMonth;
  }

  /** A Unix time has one valid date and time of day. */
  lemma DatesAreUnique(f: Fields, g: Fields)
    requires Valid(f) && Valid(g) && UnixTime(f) == UnixTime(g)
    ensures f == g
  {
    hide DayNumber;
    var a, b := f.hour * 3600 + f.minute * 60 + f.second, g.hour * 3600 + g.minute * 60 + g.second;
    assert 0 <= a < 86400 && 0 <= b < 86400;
    assert DayNumber(f) == DayNumber(g);
    SameDay(f, g);
  }

  // ---- The conversion ----

  /** The years of 32 bits: the conversion is meant for the times before their end. */
  predicate YearFits(ts: nat) { ts / 86400 < DaysToYear(U32) }

  /** The year loop, with its 32-bit year, and the days left in that year. */
  method YearOf(total: nat) returns (year: nat, days: nat)
    ensures year < U32 && days < DaysInYear(year)
    ensures total < DaysToYear(U32) ==> DaysToYear(year) + days == total
  {
    year, days := 1970, total;
    hide DaysToYear;
    FirstYear();
    ghost var wrapped := false;
    while days >= DaysInYear(year)
      invariant year < U32
      invariant if wrapped then total >= DaysToYear(U32) else DaysToYear(year) + days == total
      decreases days
    {
      NextYear(year);
      WrapYear(year);
      if year + 1 == U32 { wrapped := true; }
      days := days - DaysInYear(year);
      year := (year + 1) % U32;
    }
  }

  lemma WrapYear(year: nat)
    requires year < U32
    ensures (year + 1) % U32 == if year + 1 == U32 then 0 else year + 1
    ensures DaysInYear(year) > 0
  {
  }

  lemma FirstYear()
    ensures DaysToYear(1970) == 0
  {
  }

  /** The month loop. */
  method MonthOf(dayOfYear: nat, year: nat) returns (month: nat, days: nat)
    requires dayOfYear < DaysInYear(year)
    ensures month < 12 && days < DaysInMonth(month, year) && DaysToMonth(month, year) + days == dayOfYear
  {
    days, month := dayOfYear, 0;
    assert DaysToMonth(0, year) == 0;
    for mo := 0 to 12
      invariant days + (if mo < 12 then DaysToMonth(mo, year) else DaysInYear(year)) == dayOfYear
    {
      NextMonth(mo, year);
      var dim := DaysInMonth(mo, year);
      if days < dim { return mo, days; }
      days := days - dim;
    }
    assert false;
  }

  const MONTHS: seq<Bytes> := [
    Text("Jan"), Text("Feb"), Text("Mar"), Text("Apr"), Text("May"), Text("Jun"),
    Text("Jul"), Text("Aug"), Text("Sep"), Text("Oct"), Text("Nov"), Text("Dec")]

  const QUARTERS: seq<string> := ["JanFebMar", "AprMayJun", "JulAugSep", "OctNovDec"]

  /** The months in their order, quarter by quarter. */
  lemma NamesOfMonths(m: nat)
    requires m < 12
    ensures MONTHS[m] == Text(QUARTERS[m / 3][3 * (m % 3)..3 * (m % 3) + 3])
  {
    if m == 0 { assert QUARTERS[0][0..3] == "Jan"; }
    if m == 1 { assert QUARTERS[0][3..6] == "Feb"; }
    if m == 2 { assert QUARTERS[0][6..9] == "Mar"; }
    if m == 3 { assert QUARTERS[1][0..3] == "Apr"; }
    if m == 4 { assert QUARTERS[1][3..6] == "May"; }
    if m == 5 { assert QUARTERS[1][6..9] == "Jun"; }
    if m == 6 { assert QUARTERS[2][0..3] == "Jul"; }
    if m == 7 { assert QUARTERS[2][3..6] == "Aug"; }
    if m == 8 { assert QUARTERS[2][6..9] == "Sep"; }
    if m == 9 { assert QUARTERS[3][0..3] == "Oct"; }
    if m == 10 { assert QUARTERS[3][3..6] == "Nov"; }
    if m == 11 { assert QUARTERS[3][6..9] == "Dec"; }
  }

  /** A number with zeros put before it up to a width. */
  function Padded(n: nat, width: nat): (r: Bytes)
    ensures forall b | b in r :: IsDigit(b)
  {
    Zeros(if |Decimal(n)| < width then width - |Decimal(n)| else 0) + Decimal(n)
  }

  function Zeros(n: nat): (r: Bytes)
    ensures |r| == n && forall b | b in r :: b == 48
  {
    if n == 0 then [] else [48] + Zeros(n - 1)
  }

  function DatePart(f: Fields): Bytes
    requires f.month < 12
  {
    Padded(f.day, 2) + [47] + MONTHS[f.month] + [47]
  }

  function TimePart(f: Fields): Bytes {
    [58] + Padded(f.hour, 2) + [58] + Padded(f.minute, 2) + [58] + Padded(f.second, 2) + Text(" +0000")
  }

  /** Day, month name and year between slashes, the time behind colons, and the zone. */
  function Stamp(f: Fields): Bytes
    requires f.month < 12
  {
    DatePart(f) + Padded(f.year, 4) + TimePart(f)
  }

  lemma TimeOfDay(t: nat)
    requires t < 86400
    ensures t / 3600 < 24 && t % 3600 / 60 < 60 && t / 3600 * 3600 + t % 3600 / 60 * 60 + t % 60 == t
  {
  }

  lemma Compose(f: Fields, ts: nat, total: nat, timeOfDay: nat)
    requires f.month < 12 && total == ts / 86400 && timeOfDay == ts % 86400
    requires f.hour * 3600 + f.minute * 60 + f.second == timeOfDay
    requires DayNumber(f) < DaysToYear(U32) && (total < DaysToYear(U32) ==> DayNumber(f) == total)
    ensures UnixTime(f) == ts <==> YearFits(ts)
  {
    hide DayNumber, DaysToYear;
  }

  // ---- Reading a time stamp ----

  function MonthIndex(name: Bytes, i: nat): (r: Option<nat>)
    requires i <= 12
    ensures r.Some? ==> r.value < 12
    decreases 12 - i
  {
    if i == 12 then None else if MONTHS[i] == name then Some(i) else MonthIndex(name, i + 1)
  }

  predicate AllDigits(s: Bytes) { forall b | b in s :: IsDigit(b) }

  /** The fields at their places: two digits, a three-letter name, the year up to the fifteenth octet
      from the end, and the time. */
  function ReadStamp(t: Bytes): Option<Fields> {
    if |t| < 22 then None
    else
      var n := |t| - 15;
      var (day, year, hour, minute, second) := (t[..2], t[7..n], t[n + 1..n + 3], t[n + 4..n + 6], t[n + 7..n + 9]);
      if AllDigits(day) && AllDigits(year) && AllDigits(hour) && AllDigits(minute) && AllDigits(second)
         && t[2] == t[6] == 47 && t[n] == t[n + 3] == t[n + 6] == 58 && t[n + 9..] == Text(" +0000") then
        match MonthIndex(t[3..6], 0)
        case None => None
        case Some(month) =>
          Some(Fields(DigitsValue(day), month, DigitsValue(year), DigitsValue(hour), DigitsValue(minute),
                      DigitsValue(second)))
      else None
  }

  lemma {:induction false} LeadingZeros(k: nat, s: Bytes)
    requires AllDigits(s)
    ensures AllDigits(Zeros(k) + s) && DigitsValue(Zeros(k) + s) == DigitsValue(s)
    decreases |s|
  {
    if s == [] {
      assert Zeros(k) + s == Zeros(k);
      ZerosValue(k);
    } else {
      var n := |s| - 1;
      assert s[n] in s;
      assert (Zeros(k) + s)[..k + n] == Zeros(k) + s[..n];
      LeadingZeros(k, s[..n]);
    }
  }

  lemma {:induction false} ZerosValue(k: nat)
    ensures DigitsValue(Zeros(k)) == 0
  {
    if k > 0 {
      ZerosValue(k - 1);
      assert Zeros(k)[..k - 1] == Zeros(k - 1) by { ZerosAre(k); ZerosAre(k - 1); }
    }
  }

  lemma ZerosAre(k: nat)
    ensures Zeros(k) == seq(k, _ => 48)
  {
    var z := Zeros(k);
    assert forall i | 0 <= i < k :: z[i] in z;
  }

  lemma PaddedReads(n: nat, width: nat)
    ensures DigitsValue(Padded(n, width)) == n
  {
    DecimalValue(n);
    LeadingZeros(if |Decimal(n)| < width then width - |Decimal(n)| else 0, Decimal(n));
  }

  lemma TwoDigits(n: nat)
    requires n < 100
    ensures |Padded(n, 2)| == 2
  {
    if n >= 10 { assert |Decimal(n / 10)| == 1; }
  }

  lemma MonthNames(i: nat, j: nat)
    requires i < j < 12
    ensures MONTHS[i] != MONTHS[j]
  {
    var names := ["Jan", "Feb", "Mar", "Apr", "May", "Jun", "Jul", "Aug", "Sep", "Oct", "Nov", "Dec"];
    assert MONTHS[i] == Text(names[i]) && MONTHS[j] == Text(names[j]);
    var k := if names[i][1] != names[j][1] then 1 else 2;
    assert names[i][k] != names[j][k];
    assert Text(names[i])[k] == names[i][k] as int % 256;
    assert Text(names[j])[k] == names[j][k] as int % 256;
  }

  lemma {:induction false} MonthFound(m: nat, i: nat)
    requires i <= m < 12
    ensures MonthIndex(MONTHS[m], i) == Some(m)
    decreases m - i
  {
    if i < m {
      MonthNames(i, m);
      hide *;
      MonthFound(m, i + 1);
      MonthSkip(MONTHS[m], i);
    }
  }

  lemma MonthSkip(name: Bytes, i: nat)
    requires i < 12 && MONTHS[i] != name
    ensures MonthIndex(name, i) == MonthIndex(name, i + 1)
  {
  }

  lemma NameLength(m: nat)
    requires m < 12
    ensures |MONTHS[m]| == 3
  {
  }

  /** A printed time stamp reads back to its fields. */
  lemma StampReadsBack(f: Fields)
    requires Valid(f)
    ensures ReadStamp(Stamp(f)) == Some(f)
  {
    TwoDigits(f.day);
    TwoDigits(f.hour);
    TwoDigits(f.minute);
    TwoDigits(f.second);
    NameLength(f.month);
    PaddedReads(f.day, 2);
    PaddedReads(f.year, 4);
    PaddedReads(f.hour, 2);
    PaddedReads(f.minute, 2);
    PaddedReads(f.second, 2);
    MonthFound(f.month, 0);
    var t := Stamp(f);
    var n := |t| - 15;
    StampPlaces(Padded(f.day, 2), MONTHS[f.month], Padded(f.year, 4), Padded(f.hour, 2), Padded(f.minute, 2),
                Padded(f.second, 2), Text(" +0000"));
  }

  lemma StampPlaces(day: Bytes, month: Bytes, year: Bytes, hour: Bytes, minute: Bytes, second: Bytes, zone: Bytes)
    requires |day| == |hour| == |minute| == |second| == 2 && |month| == 3 && |zone| == 6
    ensures var t := day + [47] + month + [47] + year + ([58] + hour + [58] + minute + [58] + second + zone);
      var n := |t| - 15;
      && n == 7 + |year| && t[..2] == day && t[2] == 47 && t[3..6] == month && t[6] == 47 && t[7..n] == year
      && t[n] == 58 && t[n + 1..n + 3] == hour && t[n + 3] == 58 && t[n + 4..n + 6] == minute && t[n + 6] == 58
      && t[n + 7..n + 9] == second && t[n + 9..] == zone
  {
  }

  /** The date and time of day that `format_unix_ts` computes. */
  method FieldsOf(ts: nat) returns (f: Fields)
    ensures Valid(f) && f.year < U32
    ensures UnixTime(f) == ts <==> YearFits(ts)
  {
    var total, timeOfDay := ts / 86400, ts % 86400;
    var h, m, s := timeOfDay / 3600, timeOfDay % 3600 / 60, timeOfDay % 60;
    var year, dayOfYear := YearOf(total);
    var month, days := MonthOf(dayOfYear, year);
    f := Fields(days + 1, month, year, h, m, s);
    TimeOfDay(timeOfDay);
    InsideItsYear(f);
    YearsGrow(year + 1, U32);
    hide DaysToYear, DaysToMonth, DaysInMonth;
    Compose(f, ts, total, timeOfDay);
  }

  /** The text of `format_unix_ts`; read back, it is the given time exactly when the time's year fits 32
      bits. */
  method FormatUnixTs(ts: nat) returns (r: Bytes)
    ensures ReadStamp(r).Some? && Valid(ReadStamp(r).value) && r == Stamp(ReadStamp(r).value)
    ensures UnixTime(ReadStamp(r).value) == ts <==> YearFits(ts)
  {
    var f := FieldsOf(ts);
    StampReadsBack(f);
    hide Stamp, ReadStamp, UnixTime, YearFits;
    r := Stamp(f);
  }

  /** Distinct times whose years fit have distinct time stamps. */
  lemma StampsTellTimesApart(f: Fields, g: Fields)
    requires Valid(f) && Valid(g) && Stamp(f) == Stamp(g)
    ensures f == g && UnixTime(f) == UnixTime(g)
  {
    StampReadsBack(f);
    StampReadsBack(g);
  }
}
