/** The monthly partitions of the audit log: backend/app/db/models/audit_log.py and
    backend/alembic/versions/0003_audit_partitions.py. */
module Partitions {
  import opened Prelude

  const MAX_YEAR := 9999

  /** A calendar date; Python's dates run from year 1 to year 9999. */
  datatype Date = Date(year: int, month: int, day: int)

  predicate ValidMonth(year: int, month: int) {
    1 <= year <= MAX_YEAR && 1 <= month <= 12
  }

  predicate DateBefore(a: Date, b: Date) {
    a.year < b.year || (a.year == b.year && (a.month < b.month || (a.month == b.month && a.day < b.day)))
  }

  datatype Bounds = Bounds(start: Date, end: Date)

  /** The constructor of a Python date for the first of a month. */
  function FirstOf(year: int, month: int): Result<Date, string> {
    if ValidMonth(year, month) then Ok(Date(year, month, 1)) else Err("ValueError")
  }

  /** The half-open range of a partition. December of year 9999 has no end date and raises. */
  function PartitionBounds(year: int, month: int): Result<Bounds, string> {
    var start := FirstOf(year, month);
    if start.Err? then Err(start.error)
    else
      var end := if month == 12 then FirstOf(year + 1, 1) else FirstOf(year, month + 1);
      if end.Err? then Err(end.error) else Ok(Bounds(start.value, end.value))
  }

  function NextMonth(year: int, month: int): (int, int) {
    if month == 12 then (year + 1, 1) else (year, month + 1)
  }

  function MonthAfter(year: int, month: int, n: nat): (int, int) {
    if n == 0 then (year, month)
    else var (y, m) := MonthAfter(year, month, n - 1); NextMonth(y, m)
  }

  predicate InPartition(d: Date, year: int, month: int) {
    var b := PartitionBounds(year, month);
    b.Ok? && !DateBefore(d, b.value.start) && DateBefore(d, b.value.end)
  }

  // ---- Tiling -----------------------------------------------------------------------------

  /** Months counted from the start of year 0. */
  function Index(year: int, month: int): int {
    year * 12 + (month - 1)
  }

  /** Iterating the successor n times is division and remainder by 12. */
  lemma {:induction false} MonthAfterClosedForm(year: int, month: int, n: nat)
    requires 1 <= month <= 12
    ensures var (y, m) := MonthAfter(year, month, n);
      1 <= m <= 12 && Index(y, m) == Index(year, month) + n
      && y == (Index(year, month) + n) / 12 && m == (Index(year, month) + n) % 12 + 1
    decreases n
  {
    if n > 0 {
      MonthAfterClosedForm(year, month, n - 1);
    }
  }

  /** Exactly the last month that Python can date has no partition. */
  lemma BoundsExistIff(year: int, month: int)
    ensures PartitionBounds(year, month).Ok? <==> 1 <= year <= 9999 && 1 <= month <= 12 && (year, month) != (9999, 12)
    ensures PartitionBounds(year, month).Ok? ==>
              PartitionBounds(year, month).value ==
              Bounds(Date(year, month, 1), if month == 12 then Date(year + 1, 1, 1) else Date(year, month + 1, 1))
  {
  }

  /** Each partition ends where the partition of the next month starts, so the migration's two
      functions agree. */
  lemma PartitionsMeet(year: int, month: int)
    requires PartitionBounds(year, month).Ok?
    ensures var (y, m) := NextMonth(year, month);
            && ValidMonth(y, m)
            && PartitionBounds(year, month).value.end == FirstOf(y, m).value
            && (PartitionBounds(y, m).Ok? ==>
                  PartitionBounds(y, m).value.start == PartitionBounds(year, month).value.end)
  {
  }

  /** A date lies in the partition of its own month and in no other. */
  lemma InPartitionIffItsMonth(d: Date, year: int, month: int)
    requires 1 <= d.month <= 12 && d.day >= 1
    ensures InPartition(d, year, month) <==> d.year == year && d.month == month && PartitionBounds(year, month).Ok?
  {
  }

  /** Of the partitions created month after month from the first one, every date from then on, before
      the last month of year 9999, lies in exactly one. */
  lemma PartitionsTile(year: int, month: int, d: Date)
    requires ValidMonth(year, month) && ValidMonth(d.year, d.month) && d.day >= 1
    requires !DateBefore(d, Date(year, month, 1)) && (d.year, d.month) != (9999, 12)
    ensures exists n: nat :: InNth(d, year, month, n) && forall k: nat :: InNth(d, year, month, k) ==> k == n
  {
    assert Index(d.year, d.month) >= Index(year, month);
    var n: nat := Index(d.year, d.month) - Index(year, month);
    MonthAfterClosedForm(year, month, n);
    assert InNth(d, year, month, n);
    forall k: nat | InNth(d, year, month, k) ensures k == n {
      MonthAfterClosedForm(year, month, k);
      InPartitionIffItsMonth(d, MonthAfter(year, month, k).0, MonthAfter(year, month, k).1);
    }
  }

  predicate InNth(d: Date, year: int, month: int, n: nat) {
    var (y, m) := MonthAfter(year, month, n);
    InPartition(d, y, m)
  }

  // ---- Names ------------------------------------------------------------------------------

  function Digit(n: nat): char
    requires n < 10
  {
    '0' + n as char
  }

  /** Decimal digits, without leading zeros. */
  function Decimal(n: nat): (s: string)
    ensures |s| > 0
  {
    if n < 10 then [Digit(n)] else Decimal(n / 10) + [Digit(n % 10)]
  }

  function PadTo(s: string, width: nat): (r: string)
    ensures |r| == if |s| < width then width else |s|
    decreases width - |s|
  {
    if |s| >= width then s else PadTo("0" + s, width)
  }

  /** A padded number as it appears in a name. */
  function Padded(n: nat, width: nat): string {
    PadTo(Decimal(n), width)
  }

  function PartitionName(year: nat, month: nat): string {
    "audit_log_" + Padded(year, 4) + "_" + Padded(month, 2)
  }

  /** The number a digit string denotes. */
  function Value(s: string): nat {
    if s == [] then 0
    else Value(s[..|s| - 1]) * 10 + if '0' <= s[|s| - 1] <= '9' then (s[|s| - 1] - '0') as nat else 0
  }

  predicate Digits(s: string) {
    forall i | 0 <= i < |s| :: '0' <= s[i] <= '9'
  }

  lemma {:induction false} ValueOfDecimal(n: nat)
    ensures Value(Decimal(n)) == n && Digits(Decimal(n))
  {
    if n < 10 {
      assert Decimal(n)[..0] == "";
    } else {
      ValueOfDecimal(n / 10);
      assert Decimal(n)[..|Decimal(n)| - 1] == Decimal(n / 10);
    }
  }

  function PowerOf10(k: nat): nat {
    if k == 0 then 1 else 10 * PowerOf10(k - 1)
  }

  lemma {:induction false} DecimalLength(n: nat, k: nat)
    requires k > 0 && n < PowerOf10(k)
    ensures |Decimal(n)| <= k
    decreases k
  {
    if n >= 10 {
      assert PowerOf10(0) == 1;
      DecimalLength(n / 10, k - 1);
    }
  }

  lemma {:induction false} LeadingZero(s: string)
    ensures Value("0" + s) == Value(s)
  {
    if s == [] {
      assert ("0" + s)[..0] == "";
    } else {
      assert ("0" + s)[..|s|] == "0" + s[..|s| - 1];
      LeadingZero(s[..|s| - 1]);
    }
  }

  lemma {:induction false} ValueOfPadded(s: string, width: nat)
    requires Digits(s)
    ensures Value(PadTo(s, width)) == Value(s) && Digits(PadTo(s, width))
    decreases width - |s|
  {
    if |s| < width {
      LeadingZero(s);
      ValueOfPadded("0" + s, width);
    }
  }

  lemma PaddedValue(n: nat, width: nat)
    ensures Value(Padded(n, width)) == n && Digits(Padded(n, width)) && |Padded(n, width)| >= width
    ensures width > 0 && n < PowerOf10(width) ==> |Padded(n, width)| == width
  {
    ValueOfDecimal(n);
    ValueOfPadded(Decimal(n), width);
    if width > 0 && n < PowerOf10(width) {
      DecimalLength(n, width);
    }
  }

  lemma PowersOf10()
    ensures PowerOf10(2) == 100 && PowerOf10(4) == 10000
  {
    assert PowerOf10(1) == 10 && PowerOf10(3) == 1000;
  }

  /** Year and month can be read back off the name. */
  function ParseName(name: string): (nat, nat)
    requires |name| >= 13
  {
    (Value(name[10..|name| - 3]), Value(name[|name| - 2..]))
  }

  lemma NameParts(prefix: string, y: string, bar: string, m: string)
    requires |prefix| == 10 && |bar| == 1 && |m| == 2
    ensures var name := prefix + y + bar + m;
            name[10..|name| - 3] == y && name[|name| - 2..] == m
  {
  }

  lemma NameRoundTrip(year: nat, month: nat)
    requires 1 <= month <= 12
    ensures |PartitionName(year, month)| >= 17 && ParseName(PartitionName(year, month)) == (year, month)
  {
    PowersOf10();
    PaddedValue(year, 4);
    PaddedValue(month, 2);
    NameParts("audit_log_", Padded(year, 4), "_", Padded(month, 2));
  }

  /** The fixed parts of a name, and its length while years have four digits. */
  lemma NameShape(year: nat, month: nat)
    requires 1 <= month <= 12
    ensures var name := PartitionName(year, month);
            && |name| >= 17 && (year <= 9999 ==> |name| == 17)
            && name[..10] == "audit_log_" && name[|name| - 3] == '_'
  {
    PowersOf10();
    PaddedValue(year, 4);
    PaddedValue(month, 2);
    NameFrame("audit_log_", Padded(year, 4), "_", Padded(month, 2));
  }

  lemma NameFrame(prefix: string, y: string, bar: string, m: string)
    requires |prefix| == 10 && |bar| == 1 && |m| == 2
    ensures var name := prefix + y + bar + m;
            name[..10] == prefix && name[|name| - 3] == bar[0]
  {
  }

  /** Different months have different names. */
  lemma NamesAreInjective(y1: nat, m1: nat, y2: nat, m2: nat)
    requires 1 <= m1 <= 12 && 1 <= m2 <= 12 && PartitionName(y1, m1) == PartitionName(y2, m2)
    ensures (y1, m1) == (y2, m2)
  {
    NameRoundTrip(y1, m1);
    NameRoundTrip(y2, m2);
  }

  /** The order in which a database sorts names. */
  predicate SortsBefore(a: string, b: string) {
    if a == [] then b != []
    else b != [] && (a[0] < b[0] || (a[0] == b[0] && SortsBefore(a[1..], b[1..])))
  }

  lemma {:induction false} SamePrefixSorts(p: string, a: string, b: string)
    ensures SortsBefore(p + a, p + b) == SortsBefore(a, b)
  {
    if p == [] {
      assert p + a == a && p + b == b;
    } else {
      assert (p + a)[1..] == p[1..] + a && (p + b)[1..] == p[1..] + b;
      SamePrefixSorts(p[1..], a, b);
    }
  }

  /** Digit strings of one length sort as their values do, whatever follows. */
  lemma {:induction false} DigitsSortByValue(a: string, b: string, s: string, t: string)
    requires |a| == |b| && Digits(a) && Digits(b) && Value(a) < Value(b)
    ensures SortsBefore(a + s, b + t)
    decreases |a|
  {
    var a1, b1, x, y := a[..|a| - 1], b[..|b| - 1], a[|a| - 1], b[|b| - 1];
    if Value(a1) < Value(b1) {
      DigitsSortByValue(a1, b1, [x] + s, [y] + t);
      assert a + s == a1 + ([x] + s) && b + t == b1 + ([y] + t);
    } else {
      EqualValuesAreEqual(a1, b1);
      assert a + s == a1 + ([x] + s) && b + t == a1 + ([y] + t);
      SamePrefixSorts(a1, [x] + s, [y] + t);
    }
  }

  lemma {:induction false} EqualValuesAreEqual(a: string, b: string)
    requires |a| == |b| && Digits(a) && Digits(b) && Value(a) >= Value(b)
    ensures a == b || Value(a) > Value(b)
    decreases |a|
  {
    if a != [] {
      var a1, b1 := a[..|a| - 1], b[..|b| - 1];
      assert a == a1 + [a[|a| - 1]] && b == b1 + [b[|b| - 1]];
      if Value(a1) >= Value(b1) {
        EqualValuesAreEqual(a1, b1);
      }
    }
  }

  /** Equal year parts leave the month parts to decide. */
  lemma MonthsSort(a: string, bar: string, c: string, d: string)
    requires |c| == |d| && Digits(c) && Digits(d) && Value(c) < Value(d)
    ensures SortsBefore(a + (bar + c), a + (bar + d))
  {
    assert c + [] == c && d + [] == d;
    DigitsSortByValue(c, d, [], []);
    SamePrefixSorts(bar, c, d);
    SamePrefixSorts(a, bar + c, bar + d);
  }

  lemma ConcatAssociates(a: string, b: string, c: string, d: string)
    ensures a + b + c + d == a + (b + (c + d))
  {
  }

  /** Names of equal-length parts sort by year part, then by month part. */
  lemma PartsSort(prefix: string, a: string, b: string, bar: string, c: string, d: string)
    requires |a| == |b| && |c| == |d| && Digits(a) && Digits(b) && Digits(c) && Digits(d)
    requires Value(a) < Value(b) || (a == b && Value(c) < Value(d))
    ensures SortsBefore(prefix + a + bar + c, prefix + b + bar + d)
  {
    ConcatAssociates(prefix, a, bar, c);
    ConcatAssociates(prefix, b, bar, d);
    if Value(a) < Value(b) {
      DigitsSortByValue(a, b, bar + c, bar + d);
    } else {
      MonthsSort(a, bar, c, d);
    }
    SamePrefixSorts(prefix, a + (bar + c), b + (bar + d));
  }

  lemma YearPart(year: nat)
    requires year <= MAX_YEAR
    ensures |Padded(year, 4)| == 4 && Digits(Padded(year, 4)) && Value(Padded(year, 4)) == year
  {
    PowersOf10();
    PaddedValue(year, 4);
  }

  lemma MonthPart(month: nat)
    requires month <= 12
    ensures |Padded(month, 2)| == 2 && Digits(Padded(month, 2)) && Value(Padded(month, 2)) == month
  {
    PowersOf10();
    PaddedValue(month, 2);
  }

  /** Up to year 9999, the names sort in chronological order. */
  lemma NamesSortChronologically(y1: nat, m1: nat, y2: nat, m2: nat)
    requires 1 <= m1 <= 12 && 1 <= m2 <= 12 && y1 <= MAX_YEAR && y2 <= MAX_YEAR
    requires Index(y1, m1) < Index(y2, m2)
    ensures SortsBefore(PartitionName(y1, m1), PartitionName(y2, m2))
  {
    YearPart(y1);
    YearPart(y2);
    MonthPart(m1);
    MonthPart(m2);
    PartsSort("audit_log_", Padded(y1, 4), Padded(y2, 4), "_", Padded(m1, 2), Padded(m2, 2));
  }

  /** Beyond that they do not: five digits sort before four. */
  lemma NamesMisorderAfter9999()
    ensures !SortsBefore(PartitionName(9999, 12), PartitionName(10000, 1))
  {
    assert Decimal(10000) == "10000" && Decimal(9999) == "9999";
    assert PartitionName(9999, 12) == "audit_log_" + "9999_12";
    assert PartitionName(10000, 1) == "audit_log_" + "10000_01";
    SamePrefixSorts("audit_log_", "9999_12", "10000_01");
  }
}
