/** Times as the store writes, compares and reads them: `formatTime`, `formatAuditTime` and
    `parseTime` (backend/internal/store/store.go). A time is its UTC calendar reading. */
module Timestamps {
  import opened Text
  import opened Wrappers

  const SECOND: nat := 1_000_000_000

  /** A UTC time with a four-digit year, as section 5.6 of RFC 3339 writes it. */
  datatype Civil = Civil(year: nat, month: nat, day: nat, hour: nat, minute: nat, second: nat, nano: nat) {
    predicate Valid() {
      && year <= 9999 && 1 <= month <= 12 && 1 <= day <= DaysInMonth(year, month)
      && hour < 24 && minute < 60 && second < 60 && nano < SECOND
    }

    /** Seconds since the start of year zero. */
    function Seconds(): nat
      requires Valid()
    {
      (DaysBeforeYear(year) + DaysBeforeMonth(year, month) + (day - 1)) * 86400 + hour * 3600 + minute * 60 + second
    }

    /** The instant, in nanoseconds. */
    function Instant(): nat
      requires Valid()
    {
      Seconds() * SECOND + nano
    }
  }

  predicate Leap(year: nat) {
    year % 4 == 0 && (year % 100 != 0 || year % 400 == 0)
  }

  function DaysInMonth(year: nat, month: nat): nat {
    if month == 2 then (if Leap(year) then 29 else 28)
    else if month in {4, 6, 9, 11} then 30
    else 31
  }

  function DaysBeforeMonth(year: nat, month: nat): nat {
    if month <= 1 then 0 else DaysBeforeMonth(year, month - 1) + DaysInMonth(year, month - 1)
  }

  function DaysBeforeYear(year: nat): nat {
    if year == 0 then 0 else DaysBeforeYear(year - 1) + DaysBeforeMonth(year - 1, 13)
  }

  // ---- calendar order is instant order ----

  lemma {:induction false} MonthsGrow(year: nat, month: nat, later: nat)
    requires 1 <= month < later
    ensures DaysBeforeMonth(year, month) + DaysInMonth(year, month) <= DaysBeforeMonth(year, later)
    decreases later
  {
    if month + 1 < later {
      MonthsGrow(year, month, later - 1);
    }
  }

  lemma {:induction false} YearsGrow(year: nat, later: nat)
    requires year < later
    ensures DaysBeforeYear(year) + DaysBeforeMonth(year, 13) <= DaysBeforeYear(later)
    decreases later
  {
    if year + 1 < later {
      YearsGrow(year, later - 1);
    }
  }

  /** The day of `a` precedes the day of `b`. */
  predicate EarlierDay(a: Civil, b: Civil) {
    a.year < b.year || (a.year == b.year && (a.month < b.month || (a.month == b.month && a.day < b.day)))
  }

  function Days(c: Civil): nat
    requires c.Valid()
  {
    DaysBeforeYear(c.year) + DaysBeforeMonth(c.year, c.month) + (c.day - 1)
  }

  lemma EarlierDayIsFewerDays(a: Civil, b: Civil)
    requires a.Valid() && b.Valid() && EarlierDay(a, b)
    ensures Days(a) < Days(b)
  {
    if a.year < b.year {
      YearsGrow(a.year, b.year);
      MonthsGrow(a.year, a.month, 13);
    } else if a.month < b.month {
      MonthsGrow(a.year, a.month, b.month);
    }
  }

  /** The second of `a` precedes the second of `b`, field by field. */
  predicate EarlierSecond(a: Civil, b: Civil) {
    EarlierDay(a, b) ||
    (a.year == b.year && a.month == b.month && a.day == b.day &&
     (a.hour < b.hour || (a.hour == b.hour && (a.minute < b.minute || (a.minute == b.minute && a.second < b.second)))))
  }

  lemma EarlierSecondIsFewerSeconds(a: Civil, b: Civil)
    requires a.Valid() && b.Valid()
    ensures EarlierSecond(a, b) <==> a.Seconds() < b.Seconds()
    ensures a.Seconds() == b.Seconds() ==> a.(nano := 0) == b.(nano := 0)
  {
    if EarlierDay(a, b) {
      EarlierDayIsFewerDays(a, b);
    } else if EarlierDay(b, a) {
      EarlierDayIsFewerDays(b, a);
    }
  }

  // ---- decimal digits ----

  function Digit(n: nat): char
    requires n < 10
  {
    '0' + n as char
  }

  predicate IsDigit(c: char) {
    '0' <= c <= '9'
  }

  predicate AllDigits(s: string) {
    forall i | 0 <= i < |s| :: IsDigit(s[i])
  }

  function Pow10(k: nat): nat {
    if k == 0 then 1 else 10 * Pow10(k - 1)
  }

  /** `n` in `width` decimal digits, zero padded. */
  function Digits(n: nat, width: nat): (s: string)
    ensures |s| == width
  {
    if width == 0 then "" else Digits(n / 10, width - 1) + [Digit(n % 10)]
  }

  function Number(s: string): nat
    requires AllDigits(s)
  {
    if s == "" then 0 else 10 * Number(s[..|s| - 1]) + (s[|s| - 1] - '0') as nat
  }

  lemma {:induction false} DigitsAreDigits(n: nat, width: nat)
    ensures AllDigits(Digits(n, width))
  {
    if width > 0 {
      DigitsAreDigits(n / 10, width - 1);
    }
  }

  lemma {:induction false} NumberOfDigits(n: nat, width: nat)
    requires n < Pow10(width)
    ensures AllDigits(Digits(n, width)) && Number(Digits(n, width)) == n
  {
    DigitsAreDigits(n, width);
    if width > 0 {
      NumberOfDigits(n / 10, width - 1);
      assert Digits(n, width)[..width - 1] == Digits(n / 10, width - 1);
    }
  }

  /** Fixed-width decimals sort as their numbers, whatever follows them. */
  lemma {:induction false} DigitsOrder(a: nat, b: nat, width: nat, p: string, q: string)
    requires a < Pow10(width) && b < Pow10(width)
    ensures Less(Digits(a, width) + p, Digits(b, width) + q) <==> a < b || (a == b && Less(p, q))
    decreases width
  {
    if width == 0 {
      assert "" + p == p && "" + q == q;
    } else {
      var da, db := [Digit(a % 10)], [Digit(b % 10)];
      assert Digits(a, width) + p == Digits(a / 10, width - 1) + (da + p);
      assert Digits(b, width) + q == Digits(b / 10, width - 1) + (db + q);
      DigitsOrder(a / 10, b / 10, width - 1, da + p, db + q);
      LessConcat(da, db, p, q);
      assert da[1..] == "" && db[1..] == "";
    }
  }

  // ---- the two written forms ----

  /** The date and time to the second: nineteen characters. */
  function Whole(c: Civil): (s: string)
    ensures |s| == 19
  {
    Digits(c.year, 4) + ("-" + (Digits(c.month, 2) + ("-" + (Digits(c.day, 2) + ("T" +
    (Digits(c.hour, 2) + (":" + (Digits(c.minute, 2) + (":" + Digits(c.second, 2))))))))))
  }

  /** `formatAuditTime`: always nine fraction digits. */
  function FormatAuditTime(c: Civil): string {
    Whole(c) + ("." + (Digits(c.nano, 9) + "Z"))
  }

  function TrimZeros(s: string): string {
    if s != "" && s[|s| - 1] == '0' then TrimZeros(s[..|s| - 1]) else s
  }

  /** The fraction digits of `formatTime`: trailing zeros are dropped. */
  function Fraction(c: Civil): string {
    TrimZeros(Digits(c.nano, 9))
  }

  /** `formatTime`: the fraction is left out when it is zero. */
  function FormatTime(c: Civil): string {
    Whole(c) + Tail(Fraction(c))
  }

  lemma SameCharacterOrder(c: string, p: string, q: string)
    ensures Less(c + p, c + q) <==> Less(p, q)
  {
    LessConcat(c, c, p, q);
    LessIrreflexive(c);
  }

  lemma Widths()
    ensures Pow10(2) == 100 && Pow10(4) == 10000 && Pow10(9) == SECOND
  {
    assert Pow10(3) == 1000;
    assert Pow10(5) == 100000;
    assert Pow10(7) == 10000000;
  }

  lemma TimeOfDayOrder(a: Civil, b: Civil, p: string, q: string)
    requires a.Valid() && b.Valid()
    ensures Less(Digits(a.hour, 2) + (":" + (Digits(a.minute, 2) + (":" + (Digits(a.second, 2) + p)))),
                 Digits(b.hour, 2) + (":" + (Digits(b.minute, 2) + (":" + (Digits(b.second, 2) + q))))) <==>
            a.hour < b.hour || (a.hour == b.hour && (a.minute < b.minute || (a.minute == b.minute &&
            (a.second < b.second || (a.second == b.second && Less(p, q))))))
  {
    Widths();
    var sa, sb := Digits(a.second, 2) + p, Digits(b.second, 2) + q;
    DigitsOrder(a.second, b.second, 2, p, q);
    SameCharacterOrder(":", sa, sb);
    DigitsOrder(a.minute, b.minute, 2, ":" + sa, ":" + sb);
    var ma, mb := Digits(a.minute, 2) + (":" + sa), Digits(b.minute, 2) + (":" + sb);
    SameCharacterOrder(":", ma, mb);
    DigitsOrder(a.hour, b.hour, 2, ":" + ma, ":" + mb);
  }

  lemma DateOrder(a: Civil, b: Civil, p: string, q: string)
    requires a.Valid() && b.Valid()
    ensures Less(Digits(a.year, 4) + ("-" + (Digits(a.month, 2) + ("-" + (Digits(a.day, 2) + p)))),
                 Digits(b.year, 4) + ("-" + (Digits(b.month, 2) + ("-" + (Digits(b.day, 2) + q))))) <==>
            EarlierDay(a, b) || (a.year == b.year && a.month == b.month && a.day == b.day && Less(p, q))
  {
    Widths();
    var sa, sb := Digits(a.day, 2) + p, Digits(b.day, 2) + q;
    DigitsOrder(a.day, b.day, 2, p, q);
    SameCharacterOrder("-", sa, sb);
    DigitsOrder(a.month, b.month, 2, "-" + sa, "-" + sb);
    var ma, mb := Digits(a.month, 2) + ("-" + sa), Digits(b.month, 2) + ("-" + sb);
    SameCharacterOrder("-", ma, mb);
    DigitsOrder(a.year, b.year, 4, "-" + ma, "-" + mb);
  }

  lemma WholeParts(c: Civil, p: string)
    ensures Whole(c) + p ==
            Digits(c.year, 4) + ("-" + (Digits(c.month, 2) + ("-" + (Digits(c.day, 2) + ("T" +
            (Digits(c.hour, 2) + (":" + (Digits(c.minute, 2) + (":" + (Digits(c.second, 2) + p))))))))))
  {
    hide Digits;
  }

  /** Written times are decided by the whole second, then by what follows it. */
  lemma WholeOrder(a: Civil, b: Civil, p: string, q: string)
    requires a.Valid() && b.Valid()
    ensures Less(Whole(a) + p, Whole(b) + q) <==>
            a.Seconds() < b.Seconds() || (a.Seconds() == b.Seconds() && Less(p, q))
  {
    hide Digits, Less, Whole, Civil.Seconds;
    WholeParts(a, p);
    WholeParts(b, q);
    var ta := Digits(a.hour, 2) + (":" + (Digits(a.minute, 2) + (":" + (Digits(a.second, 2) + p))));
    var tb := Digits(b.hour, 2) + (":" + (Digits(b.minute, 2) + (":" + (Digits(b.second, 2) + q))));
    TimeOfDayOrder(a, b, p, q);
    SameCharacterOrder("T", ta, tb);
    DateOrder(a, b, "T" + ta, "T" + tb);
    EarlierSecondIsFewerSeconds(a, b);
    EarlierSecondIsFewerSeconds(b, a);
  }

  /** Audit timestamps sort as strings exactly as the instants they denote. */
  lemma AuditTimesSortAsInstants(a: Civil, b: Civil)
    requires a.Valid() && b.Valid()
    ensures Less(FormatAuditTime(a), FormatAuditTime(b)) <==> a.Instant() < b.Instant()
    ensures FormatAuditTime(a) == FormatAuditTime(b) <==> a.Instant() == b.Instant()
  {
    Widths();
    AuditTimeOrder(a, b);
    AuditTimeOrder(b, a);
    LessTotal(FormatAuditTime(a), FormatAuditTime(b));
    LessIrreflexive(FormatAuditTime(a));
    EarlierSecondIsFewerSeconds(a, b);
    InstantOrder(a, b);
    InstantOrder(b, a);
  }

  lemma InstantOrder(a: Civil, b: Civil)
    requires a.Valid() && b.Valid()
    ensures a.Instant() < b.Instant() <==>
            a.Seconds() < b.Seconds() || (a.Seconds() == b.Seconds() && a.nano < b.nano)
  {
  }

  lemma AuditTimeOrder(a: Civil, b: Civil)
    requires a.Valid() && b.Valid()
    ensures Less(FormatAuditTime(a), FormatAuditTime(b)) <==>
            a.Seconds() < b.Seconds() || (a.Seconds() == b.Seconds() && a.nano < b.nano)
  {
    Widths();
    var pa, pb := Digits(a.nano, 9) + "Z", Digits(b.nano, 9) + "Z";
    WholeOrder(a, b, "." + pa, "." + pb);
    SameCharacterOrder(".", pa, pb);
    DigitsOrder(a.nano, b.nano, 9, "Z", "Z");
    LessIrreflexive("Z");
  }

  // ---- the trimmed form ----

  function Zeros(k: nat): (s: string)
    ensures |s| == k && AllDigits(s)
  {
    seq(k, _ => '0')
  }

  lemma {:induction false} TrimZerosSplits(s: string)
    ensures |TrimZeros(s)| <= |s| && s == TrimZeros(s) + Zeros(|s| - |TrimZeros(s)|)
    decreases |s|
  {
    if s != "" && s[|s| - 1] == '0' {
      TrimZerosSplits(s[..|s| - 1]);
      assert s == s[..|s| - 1] + "0";
    }
  }

  /** Where neither head continues the other, what follows does not matter. */
  lemma {:induction false} DivergingOrder(x: string, y: string, p: string, q: string)
    requires !(x <= y) && !(y <= x)
    ensures Less(x + p, y + q) <==> Less(x, y)
    decreases |x|
  {
    if x[0] == y[0] {
      assert (x + p)[1..] == x[1..] + p && (y + q)[1..] == y[1..] + q;
      assert x == [x[0]] + x[1..] && y == [y[0]] + y[1..];
      DivergingOrder(x[1..], y[1..], p, q);
    }
  }

  lemma {:induction false} NothingBelowZeros(s: string)
    requires AllDigits(s)
    ensures !Less(s, Zeros(|s|))
    decreases |s|
  {
    if s != "" {
      assert Zeros(|s|)[1..] == Zeros(|s| - 1);
      NothingBelowZeros(s[1..]);
    }
  }

  /** `formatTime` strings of different seconds sort as their instants. Within one second the
      earlier of two times sorts first if and only if its trimmed fraction is not a prefix of
      the later one's. */
  lemma TrimmedTimeOrder(a: Civil, b: Civil)
    requires a.Valid() && b.Valid()
    ensures a.Seconds() != b.Seconds() ==>
            (Less(FormatTime(a), FormatTime(b)) <==> a.Instant() < b.Instant())
    ensures a.Seconds() == b.Seconds() && a.nano < b.nano ==>
            (Less(FormatTime(a), FormatTime(b)) <==> !(Fraction(a) <= Fraction(b))) &&
            (Less(FormatTime(b), FormatTime(a)) <==> Fraction(a) <= Fraction(b))
  {
    InstantOrder(a, b);
    WholeOrder(a, b, Tail(Fraction(a)), Tail(Fraction(b)));
    WholeOrder(b, a, Tail(Fraction(b)), Tail(Fraction(a)));
    if a.Seconds() == b.Seconds() && a.nano < b.nano {
      FractionOrder(a.nano, b.nano);
    }
  }

  lemma FractionOrder(a: nat, b: nat)
    requires a < b < SECOND
    ensures var x, y := TrimZeros(Digits(a, 9)), TrimZeros(Digits(b, 9));
            (Less(Tail(x), Tail(y)) <==> !(x <= y)) && (Less(Tail(y), Tail(x)) <==> x <= y)
  {
    hide Digits, TrimZeros, Tail, Less, Zeros;
    var da, db := Digits(a, 9), Digits(b, 9);
    assert Less(da, db) by {
      Widths();
      DigitsOrder(a, b, 9, "", "");
      assert da + "" == da && db + "" == db;
    }
    TrimZerosSplits(da);
    TrimZerosSplits(db);
    DigitsAreDigits(a, 9);
    DigitsAreDigits(b, 9);
    TrimmedOrder(da, db, TrimZeros(da), TrimZeros(db));
  }

  /** What follows the seconds of a trimmed time. */
  function Tail(fraction: string): string {
    if fraction == "" then "Z" else "." + (fraction + "Z")
  }

  lemma TrimmedOrder(da: string, db: string, x: string, y: string)
    requires |da| == |db| && AllDigits(da) && AllDigits(db) && Less(da, db)
    requires |x| <= |da| && da == x + Zeros(|da| - |x|)
    requires |y| <= |db| && db == y + Zeros(|db| - |y|)
    ensures (Less(Tail(x), Tail(y)) <==> !(x <= y)) && (Less(Tail(y), Tail(x)) <==> x <= y)
  {
    NotShortened(da, db, x, y);
    if x <= y {
      ContinuedSortsLater(x, y, db);
    } else {
      DivergingOrder(x, y, Zeros(|da| - |x|), Zeros(|db| - |y|));
      DivergingOrder(x, y, "Z", "Z");
      DivergingOrder(y, x, "Z", "Z");
      SameCharacterOrder(".", x + "Z", y + "Z");
      SameCharacterOrder(".", y + "Z", x + "Z");
      LessAsymmetric(x, y);
    }
  }

  // The later of two fractions is not a prefix of the earlier.
  lemma NotShortened(da: string, db: string, x: string, y: string)
    requires |da| == |db| && AllDigits(da) && Less(da, db)
    requires |x| <= |da| && da == x + Zeros(|da| - |x|)
    requires |y| <= |db| && db == y + Zeros(|db| - |y|)
    ensures !(y <= x)
  {
    if y <= x {
      var r := x[|y|..] + Zeros(|da| - |x|);
      assert da == y + r;
      assert AllDigits(r) by {
        forall i | 0 <= i < |r| ensures IsDigit(r[i]) { assert r[i] == da[|y| + i]; }
      }
      SameCharacterOrder(y, r, Zeros(|db| - |y|));
      NothingBelowZeros(r);
    }
  }

  lemma ContinuedSortsLater(x: string, y: string, db: string)
    requires x < y <= db && AllDigits(db)
    ensures !Less(Tail(x), Tail(y)) && Less(Tail(y), Tail(x))
  {
    var r := y[|x|..];
    assert y + "Z" == x + (r + "Z");
    assert IsDigit(r[0]) by { assert r[0] == db[|x|]; }
    SameCharacterOrder(x, "Z", r + "Z");
    SameCharacterOrder(x, r + "Z", "Z");
    SameCharacterOrder(".", x + "Z", y + "Z");
    SameCharacterOrder(".", y + "Z", x + "Z");
  }

  /** Comparing `formatTime` strings misplaces a time by strictly less than one second. */
  lemma TrimmedTimesErrBelowASecond(a: Civil, b: Civil)
    requires a.Valid() && b.Valid()
    ensures Less(FormatTime(a), FormatTime(b)) ==> a.Instant() < b.Instant() + SECOND
    ensures !Less(FormatTime(a), FormatTime(b)) ==> b.Instant() < a.Instant() + SECOND
  {
    TrimmedTimeOrder(a, b);
    InstantOrder(a, b);
  }

  /** The error is real: half a second past is after the exact second, and sorts before it. */
  lemma TrimmedTimesDoErr() returns (a: Civil, b: Civil)
    ensures a.Valid() && b.Valid() && a.Instant() < b.Instant()
    ensures Less(FormatTime(b), FormatTime(a))
  {
    a := Civil(2026, 8, 29, 12, 0, 0, 0);
    b := a.(nano := 500_000_000);
    Widths();
    InstantOrder(a, b);
    TrimmedTimeOrder(a, b);
    FractionOfZero(9);
  }

  lemma {:induction false} FractionOfZero(width: nat)
    ensures TrimZeros(Digits(0, width)) == ""
  {
    if width > 0 {
      var fewer := Digits(0, width - 1);
      assert Digits(0, width) == fewer + ['0'];
      assert (fewer + ['0'])[..|fewer|] == fewer;
      hide Digits;
      FractionOfZero(width - 1);
    }
  }

  /** A trimmed time sorts after the full-width form of the same instant. */
  lemma TrimmedSortsAfterFull(c: Civil)
    requires c.Valid() && c.nano % 10 == 0
    ensures Less(FormatAuditTime(c), FormatTime(c))
  {
    var d, f := Digits(c.nano, 9), Fraction(c);
    TrimZerosSplits(d);
    TrimZerosSplits(d[..8]);
    assert d[8] == '0' && f == TrimZeros(d[..8]);
    WholeOrder(c, c, "." + (d + "Z"), Tail(f));
    if f != "" {
      var z := Zeros(9 - |f|);
      assert d + "Z" == f + (z + "Z");
      SameCharacterOrder(".", d + "Z", f + "Z");
      SameCharacterOrder(f, z + "Z", "Z");
    }
  }

  /** Where the last digit counts there is nothing to trim. */
  lemma UntrimmedIsFull(c: Civil)
    requires c.Valid() && c.nano % 10 != 0
    ensures FormatTime(c) == FormatAuditTime(c)
  {
    var d := Digits(c.nano, 9);
    assert d[8] == Digit(c.nano % 10) != '0';
    assert TrimZeros(d) == d;
  }

  // ---- reading ----

  function NumberAt(s: string, from: nat, width: nat): Option<nat> {
    if from + width <= |s| && AllDigits(s[from..from + width]) then Some(Number(s[from..from + width])) else None
  }

  function FractionDigits(s: string): string {
    if |s| > 21 && s[19] == '.' then s[20..|s| - 1] else ""
  }

  /** `parseTime` on the forms above: a whole second, then an optional fraction of one to nine
      digits, then "Z". Anything else has no reading here. */
  function ParseTime(s: string): Option<Civil> {
    if |s| < 20 || s[4] != '-' || s[7] != '-' || s[10] != 'T' || s[13] != ':' || s[16] != ':' || s[|s| - 1] != 'Z'
    then None
    else
      var year, month, day := NumberAt(s, 0, 4), NumberAt(s, 5, 2), NumberAt(s, 8, 2);
      var hour, minute, second := NumberAt(s, 11, 2), NumberAt(s, 14, 2), NumberAt(s, 17, 2);
      var digits := FractionDigits(s);
      if year.None? || month.None? || day.None? || hour.None? || minute.None? || second.None? then None
      else if |s| > 20 && (digits == "" || |digits| > 9 || !AllDigits(digits)) then None
      else
        var c := Civil(year.value, month.value, day.value, hour.value, minute.value, second.value,
                       Number(digits) * Pow10(9 - |digits|));
        if c.Valid() then Some(c) else None
  }

  lemma {:induction false} NumberWithZeros(s: string, k: nat)
    requires AllDigits(s)
    ensures AllDigits(s + Zeros(k)) && Number(s + Zeros(k)) == Number(s) * Pow10(k)
    decreases k
  {
    if k == 0 {
      assert s + Zeros(0) == s;
    } else {
      var shorter := s + Zeros(k - 1);
      assert s + Zeros(k) == shorter + ['0'] && (shorter + ['0'])[..|shorter|] == shorter;
      NumberWithZeros(s, k - 1);
      hide Zeros;
      assert Number(shorter + ['0']) == 10 * Number(shorter);
      hide Number;
      TenTimes(Number(s), Pow10(k - 1));
    }
  }

  lemma TenTimes(x: nat, y: nat)
    ensures x * (10 * y) == 10 * (x * y)
  {
  }

  lemma WholeFields(c: Civil, p: string)
    requires c.Valid()
    ensures var s := Whole(c) + p;
            && s[0..4] == Digits(c.year, 4) && s[5..7] == Digits(c.month, 2) && s[8..10] == Digits(c.day, 2)
            && s[11..13] == Digits(c.hour, 2) && s[14..16] == Digits(c.minute, 2) && s[17..19] == Digits(c.second, 2)
            && s[4] == '-' && s[7] == '-' && s[10] == 'T' && s[13] == ':' && s[16] == ':'
  {
    hide Digits, Whole;
    WholeParts(c, p);
    var y, mo, d := Digits(c.year, 4), Digits(c.month, 2), Digits(c.day, 2);
    var h, mi, s := Digits(c.hour, 2), Digits(c.minute, 2), Digits(c.second, 2);
    var s17 := s + p;
    var s14 := mi + (":" + s17);
    var s11 := h + (":" + s14);
    var s8 := d + ("T" + s11);
    var s5 := mo + ("-" + s8);
    var all := y + ("-" + s5);
    assert Whole(c) + p == all;
    NextField(all, y, "-", s5, 0);
    NextField(all, mo, "-", s8, 5);
    NextField(all, d, "T", s11, 8);
    NextField(all, h, ":", s14, 11);
    NextField(all, mi, ":", s17, 14);
    assert all[17..19] == s17[..2] == s;
  }

  // A field that stands at `from`, its separator, and where the next field stands.
  lemma NextField(all: string, field: string, mark: string, rest: string, from: nat)
    requires from <= |all| && all[from..] == field + (mark + rest) && |mark| == 1
    ensures var end := from + |field|;
            end < |all| && all[from..end] == field && all[end] == mark[0] && all[end + 1..] == rest
  {
    var end := from + |field|;
    assert all[from..end] == all[from..][..|field|];
    assert all[end] == all[from..][|field|];
    assert all[end + 1..] == all[from..][|field| + 1..];
  }

  lemma WholeNumbers(c: Civil, p: string)
    requires c.Valid()
    ensures var s := Whole(c) + p;
            && NumberAt(s, 0, 4) == Some(c.year) && NumberAt(s, 5, 2) == Some(c.month)
            && NumberAt(s, 8, 2) == Some(c.day) && NumberAt(s, 11, 2) == Some(c.hour)
            && NumberAt(s, 14, 2) == Some(c.minute) && NumberAt(s, 17, 2) == Some(c.second)
  {
    Widths();
    hide Digits, Whole, Number, Pow10, AllDigits;
    WholeFields(c, p);
    NumberOfDigits(c.year, 4);
    NumberOfDigits(c.month, 2);
    NumberOfDigits(c.day, 2);
    NumberOfDigits(c.hour, 2);
    NumberOfDigits(c.minute, 2);
    NumberOfDigits(c.second, 2);
  }

  lemma ParsesWhole(c: Civil, digits: string)
    requires c.Valid() && |digits| <= 9 && AllDigits(digits) && Number(digits) * Pow10(9 - |digits|) == c.nano
    ensures ParseTime(Whole(c) + Tail(digits)) == Some(c)
  {
    hide Digits, Whole, Number, Pow10, NumberAt, AllDigits;
    var s := Whole(c) + Tail(digits);
    TailParts(Whole(c), digits);
    hide FractionDigits, Tail;
    WholeFields(c, Tail(digits));
    WholeNumbers(c, Tail(digits));
  }

  lemma TailParts(whole: string, digits: string)
    requires |whole| == 19
    ensures var s := whole + Tail(digits);
            FractionDigits(s) == digits && |s| >= 20 && s[|s| - 1] == 'Z' && (|s| > 20 ==> digits != "")
  {
    var s := whole + Tail(digits);
    if digits != "" {
      assert s[20..|s| - 1] == digits;
    }
  }

  /** Reading gives back every time that was written, in either form. */
  lemma ParseUndoesFormat(c: Civil)
    requires c.Valid()
    ensures ParseTime(FormatAuditTime(c)) == Some(c)
    ensures ParseTime(FormatTime(c)) == Some(c)
  {
    Widths();
    NumberOfDigits(c.nano, 9);
    TrimZerosSplits(Digits(c.nano, 9));
    var f := Fraction(c);
    hide Digits, Whole, Number, ParseTime, TrimZeros;
    forall i | 0 <= i < |f| ensures IsDigit(f[i]) { assert f[i] == Digits(c.nano, 9)[i]; }
    NumberWithZeros(f, 9 - |f|);
    assert Pow10(0) == 1;
    ParsesWhole(c, Digits(c.nano, 9));
    ParsesWhole(c, f);
  }

  // ---- the written forms, character by character ----

  /** The decimal digits of `n` of these weights stand there. */
  predicate InDecimal(s: string, from: nat, n: nat, weights: seq<nat>) {
    && from + |weights| <= |s|
    && forall k | 0 <= k < |weights| :: weights[k] > 0 && s[from + k] as int == 48 + n / weights[k] % 10
  }

  /** YYYY-MM-DDThh:mm:ss */
  predicate WrittenToTheSecond(s: string, c: Civil) {
    && |s| >= 19 && s[4] == '-' && s[7] == '-' && s[10] == 'T' && s[13] == ':' && s[16] == ':'
    && InDecimal(s, 0, c.year, [1000, 100, 10, 1]) && InDecimal(s, 5, c.month, [10, 1])
    && InDecimal(s, 8, c.day, [10, 1]) && InDecimal(s, 11, c.hour, [10, 1])
    && InDecimal(s, 14, c.minute, [10, 1]) && InDecimal(s, 17, c.second, [10, 1])
  }

  /** An audit time: to the second, a point, nine digits and a Z. */
  lemma AuditTimeIsWritten(c: Civil)
    requires c.Valid()
    ensures var s := FormatAuditTime(c);
      && |s| == 30 && WrittenToTheSecond(s, c) && s[19] == '.' && s[29] == 'Z'
      && InDecimal(s, 20, c.nano, [100_000_000, 10_000_000, 1_000_000, 100_000, 10_000, 1000, 100, 10, 1])
  {
    hide Whole, Digits, InDecimal, Pow10;
    var digits, weights := Digits(c.nano, 9), Weights(9);
    var rest := "." + (digits + "Z");
    SecondIsWritten(c, rest);
    WeightsAre();
    DigitsAreDecimal(c.nano, 9);
    var s := Whole(c) + rest;
    assert s[20..29] == digits;
    Within(s, 20, 9, c.nano, weights);
  }

  /** Other times: the same without the trailing zeros of the fraction, and without the point if
      nothing is left of it. */
  lemma TrimmedTimeIsWritten(c: Civil)
    requires c.Valid()
    ensures var full, s := FormatAuditTime(c), FormatTime(c);
      && 20 <= |s| <= |full| == 30 && s[|s| - 1] == 'Z' && s[..|s| - 1] == full[..|s| - 1]
      && (|s| == 20 || (|s| > 21 && s[|s| - 2] != '0'))
      && forall k | 20 <= k < 29 && |s| - 1 <= k :: full[k] == '0'
  {
    hide Whole, Digits, TrimZeros;
    var digits := Digits(c.nano, 9);
    TrimZerosSplits(digits);
    TrimZerosEnds(digits);
  }

  lemma {:induction false} TrimZerosEnds(s: string)
    ensures var t := TrimZeros(s);
            t != "" ==> t[|t| - 1] != '0'
  {
    if s != "" && s[|s| - 1] == '0' {
      TrimZerosEnds(s[..|s| - 1]);
    }
  }

  function Weights(width: nat): (weights: seq<nat>)
    ensures |weights| == width
  {
    seq(width, k requires 0 <= k < width => Pow10(width - 1 - k))
  }

  lemma WeightsAre()
    ensures Weights(2) == [10, 1] && Weights(4) == [1000, 100, 10, 1]
    ensures Weights(9) == [100_000_000, 10_000_000, 1_000_000, 100_000, 10_000, 1000, 100, 10, 1]
  {
    assert Pow10(0) == 1 && Pow10(1) == 10 && Pow10(2) == 100 && Pow10(3) == 1000;
    assert Pow10(4) == 10_000 && Pow10(5) == 100_000 && Pow10(6) == 1_000_000;
    assert Pow10(7) == 10_000_000 && Pow10(8) == 100_000_000;
  }

  lemma {:induction false} DigitsAreDecimal(n: nat, width: nat)
    ensures InDecimal(Digits(n, width), 0, n, Weights(width))
  {
    if width > 0 {
      var weights, digits := Weights(width), Digits(n, width);
      DigitsAreDecimal(n / 10, width - 1);
      forall k | 0 <= k < width
        ensures weights[k] > 0 && digits[k] as int == 48 + n / weights[k] % 10
      {
        Pow10Positive(width - 1 - k);
        if k < width - 1 {
          assert digits[k] == Digits(n / 10, width - 1)[k] && Weights(width - 1)[k] == Pow10(width - 2 - k);
          DividedTwice(n, Pow10(width - 2 - k));
        } else {
          assert weights[k] == 1 && digits[k] == Digit(n % 10);
        }
      }
    }
  }

  lemma {:induction false} Pow10Positive(k: nat)
    ensures Pow10(k) > 0
  {
    if k > 0 {
      Pow10Positive(k - 1);
    }
  }

  lemma DividedTwice(n: nat, m: nat)
    requires m > 0
    ensures n / 10 / m == n / (10 * m)
  {
    var q, r := n / 10 / m, n / 10 % m;
    assert n / 10 == q * m + r;
    assert n == 10 * (q * m + r) + n % 10;
    var rest := 10 * r + n % 10;
    assert rest < 10 * m;
    assert 10 * (q * m) == q * (10 * m);
    assert n == q * (10 * m) + rest;
    QuotientIs(n, 10 * m, q, rest);
  }

  lemma QuotientIs(n: nat, d: nat, q: nat, r: nat)
    requires d > 0 && r < d && n == q * d + r
    ensures n / d == q
  {
    if n / d < q {
      Below(n / d + 1, q, d);
    } else if q < n / d {
      Below(q + 1, n / d, d);
    }
  }

  lemma Below(a: nat, b: nat, d: nat)
    requires a <= b
    ensures a * d <= b * d
  {
    assert b * d == a * d + (b - a) * d;
  }

  lemma Within(s: string, from: nat, width: nat, n: nat, weights: seq<nat>)
    requires from + width <= |s| && |weights| == width && InDecimal(s[from..from + width], 0, n, weights)
    ensures InDecimal(s, from, n, weights)
  {
    var part := s[from..from + width];
    assert forall k | 0 <= k < width :: part[k] == s[from + k];
  }

  lemma SecondIsWritten(c: Civil, p: string)
    requires c.Valid()
    ensures WrittenToTheSecond(Whole(c) + p, c)
  {
    hide Whole, Digits, InDecimal, Weights;
    var s := Whole(c) + p;
    WholeFields(c, p);
    WeightsAre();
    DigitsAreDecimal(c.year, 4);
    Within(s, 0, 4, c.year, Weights(4));
    FieldIsWritten(s, 5, c.month);
    FieldIsWritten(s, 8, c.day);
    FieldIsWritten(s, 11, c.hour);
    FieldIsWritten(s, 14, c.minute);
    FieldIsWritten(s, 17, c.second);
  }

  lemma FieldIsWritten(s: string, from: nat, n: nat)
    requires from + 2 <= |s| && s[from..from + 2] == Digits(n, 2)
    ensures InDecimal(s, from, n, [10, 1])
  {
    hide Digits, InDecimal, Weights;
    WeightsAre();
    DigitsAreDecimal(n, 2);
    Within(s, from, 2, n, Weights(2));
  }

  lemma {:induction false} DigitsOfNumber(s: string)
    requires AllDigits(s)
    ensures Digits(Number(s), |s|) == s
    decreases |s|
  {
    if s != "" {
      var front := s[..|s| - 1];
      DigitsOfNumber(front);
      assert s == front + [s[|s| - 1]];
    }
  }

  lemma ReadField(s: string, from: nat)
    requires NumberAt(s, from, 2).Some?
    ensures InDecimal(s, from, NumberAt(s, from, 2).value, [10, 1])
  {
    hide Digits, InDecimal;
    DigitsOfNumber(s[from..from + 2]);
    FieldIsWritten(s, from, NumberAt(s, from, 2).value);
  }

  /** Only such strings have a reading: to the second, then a Z, or a point, up to nine digits and
      a Z. */
  lemma OnlyTheseAreRead(s: string)
    requires ParseTime(s).Some?
    ensures ParseTime(s).value.Valid() && WrittenToTheSecond(s, ParseTime(s).value) && s[|s| - 1] == 'Z'
    ensures |s| == 20 || (22 <= |s| <= 30 && s[19] == '.' && AllDigits(s[20..|s| - 1]))
  {
    hide InDecimal, Digits, Number, Pow10;
    ReadField(s, 5);
    ReadField(s, 8);
    ReadField(s, 11);
    ReadField(s, 14);
    ReadField(s, 17);
    WeightsAre();
    DigitsOfNumber(s[0..4]);
    var year := NumberAt(s, 0, 4).value;
    DigitsAreDecimal(year, 4);
    Within(s, 0, 4, year, Weights(4));
    hide AllDigits, NumberAt, Civil.Valid;
  }

  /** The calendar: the days of a year before each month, and those of the year. */
  lemma DaysOfTheYear(year: nat, month: nat)
    requires 1 <= month <= 13
    ensures var leap := year % 400 == 0 || (year % 4 == 0 && year % 100 != 0);
            DaysBeforeMonth(year, month) ==
            [0, 31, 59, 90, 120, 151, 181, 212, 243, 273, 304, 334, 365][month - 1] +
            (if leap && month > 2 then 1 else 0)
  {
    assert DaysBeforeMonth(year, 2) == 31;
    assert DaysBeforeMonth(year, 3) == 31 + DaysInMonth(year, 2);
    assert DaysBeforeMonth(year, 4) == 31 + DaysBeforeMonth(year, 3);
    assert DaysBeforeMonth(year, 5) == 30 + DaysBeforeMonth(year, 4);
    assert DaysBeforeMonth(year, 6) == 31 + DaysBeforeMonth(year, 5);
    assert DaysBeforeMonth(year, 7) == 30 + DaysBeforeMonth(year, 6);
    assert DaysBeforeMonth(year, 8) == 31 + DaysBeforeMonth(year, 7);
    assert DaysBeforeMonth(year, 9) == 31 + DaysBeforeMonth(year, 8);
    assert DaysBeforeMonth(year, 10) == 30 + DaysBeforeMonth(year, 9);
    assert DaysBeforeMonth(year, 11) == 31 + DaysBeforeMonth(year, 10);
    assert DaysBeforeMonth(year, 12) == 30 + DaysBeforeMonth(year, 11);
  }
}
