/** The printed names and dates in the partition statements, and what reads them back. */
module PartitionNames {
  import opened Optional
  import opened Calendar

  predicate IsDigit(c: char) {
    '0' <= c <= '9'
  }

  predicate AllDigits(s: string) {
    forall c | c in s :: IsDigit(c)
  }

  function Digit(d: nat): char
    requires d < 10
  {
    ('0' as int + d) as char
  }

  /** Decimal digits without leading zeros. */
  function Decimal(n: nat): (s: string)
    ensures AllDigits(s) && |s| > 0
  {
    if n < 10 then [Digit(n)] else Decimal(n / 10) + [Digit(n % 10)]
  }

  function PadTwo(n: nat): (s: string)
    ensures AllDigits(s)
  {
    if n < 10 then "0" + Decimal(n) else Decimal(n)
  }

  function Value(s: string): nat
    requires AllDigits(s)
  {
    if s == "" then 0
    else
      assert IsDigit(s[|s| - 1]);
      10 * Value(s[..|s| - 1]) + (s[|s| - 1] as int - '0' as int)
  }

  /** `p` followed by the year and the two-digit month. */
  function PartitionName(month: int): string
    requires month >= 0
  {
    "p" + Decimal(month / 12) + PadTwo(month % 12 + 1)
  }

  /** The `Date` constructor reads years 0 to 99 as 1900 to 1999. */
  function ConstructorYear(year: nat): nat {
    if year <= 99 then 1900 + year else year
  }

  /** The first of the month a name stands for: `p`, four digits of year, two of month. */
  function ParsePartitionName(name: string): Option<Date> {
    if |name| == 7 && name[0] == 'p' && AllDigits(name[1..])
    then Some(FirstOf(MonthOf(ConstructorYear(Value(name[1..5])), Value(name[5..]) - 1)))
    else None
  }

  /** The date in the form the statements carry it. */
  function ToDateStr(d: Date): string
    requires d.month >= 0 && d.day >= 0
  {
    Decimal(d.month / 12) + "-" + PadTwo(d.month % 12 + 1) + "-" + PadTwo(d.day)
  }

  /** The server's TO_DAYS on a date string, as a day number: four-digit years only. */
  function ToDays(s: string): Option<int> {
    if |s| == 10 && s[4] == '-' && s[7] == '-' && AllDigits(s[..4]) && AllDigits(s[5..7]) && AllDigits(s[8..]) then
      var m, day := Value(s[5..7]), Value(s[8..]);
      if 1 <= m <= 12 && 1 <= day <= DaysIn(MonthOf(Value(s[..4]), m - 1))
      then Some(MonthStart(MonthOf(Value(s[..4]), m - 1)) + day - 1)
      else None
    else None
  }

  lemma {:induction false} DecimalReadsBack(n: nat)
    ensures Value(Decimal(n)) == n
  {
    if n < 10 {
      assert Decimal(n)[..0] == "";
    } else {
      var front := Decimal(n / 10);
      assert Decimal(n)[..|Decimal(n)| - 1] == front;
      DecimalReadsBack(n / 10);
    }
  }

  lemma DecimalLength(n: nat)
    ensures |Decimal(n)| == 1 <==> n < 10
    ensures |Decimal(n)| == 2 <==> 10 <= n < 100
    ensures |Decimal(n)| == 4 <==> 1000 <= n < 10000
  {
    assert n >= 10 ==> Decimal(n) == Decimal(n / 10) + [Digit(n % 10)];
    assert n >= 100 ==> Decimal(n / 10) == Decimal(n / 10 / 10) + [Digit(n / 10 % 10)];
    assert n >= 1000 ==> Decimal(n / 10 / 10) == Decimal(n / 10 / 10 / 10) + [Digit(n / 10 / 10 % 10)];
  }

  lemma PadTwoReadsBack(n: nat)
    requires n < 100
    ensures |PadTwo(n)| == 2 && Value(PadTwo(n)) == n
  {
    DecimalLength(n);
    DecimalReadsBack(n);
    if n < 10 {
      var s := "0" + Decimal(n);
      assert s[..1] == "0" && "0"[..0] == "";
      assert Value("0") == 0;
    }
  }

  /** A month's name reads back as that month exactly for years of four digits. */
  lemma NameReadsBackIff(month: int)
    requires month >= 0
    ensures ParsePartitionName(PartitionName(month)) == Some(FirstOf(month)) <==> 1000 <= month / 12 <= 9999
  {
    var y, m := month / 12, month % 12 + 1;
    var name := PartitionName(month);
    DecimalLength(y);
    PadTwoReadsBack(m);
    if 1000 <= y <= 9999 {
      DecimalReadsBack(y);
      assert name[1..5] == Decimal(y) && name[5..] == PadTwo(m);
      assert name[1..] == Decimal(y) + PadTwo(m);
    }
  }

  /** Distinct months of four-digit years have distinct names, none of them `pmax`. */
  lemma NamesAreDistinct(a: int, b: int)
    requires 12000 <= a < 120000 && 12000 <= b < 120000
    ensures PartitionName(a) == PartitionName(b) <==> a == b
    ensures PartitionName(a) != "pmax"
  {
    NameReadsBackIff(a);
    NameReadsBackIff(b);
  }

  /** The server reads a printed date back as the same day. */
  lemma DateStrReadsBack(d: Date)
    requires ValidDate(d) && 12000 <= d.month < 120000
    ensures ToDays(ToDateStr(d)) == Some(DayNumber(d))
  {
    var y, m := d.month / 12, d.month % 12 + 1;
    var s := ToDateStr(d);
    DecimalLength(y);
    DecimalReadsBack(y);
    PadTwoReadsBack(m);
    PadTwoReadsBack(d.day);
    assert s[..4] == Decimal(y) && s[5..7] == PadTwo(m) && s[8..] == PadTwo(d.day);
  }

  lemma Digits2022()
    ensures Decimal(2022) == "2022" && PadTwo(2) == "02" && PadTwo(1) == "01"
  {
    assert Decimal(2) == "2";
    assert Decimal(20) == "2" + "0";
    assert Decimal(202) == "20" + "2";
    assert Decimal(2022) == "202" + "2";
  }

  /** The month February 2022 and its first day as the statements carry them. */
  lemma PrintedForms()
    ensures PartitionName(12 * 2022 + 1) == "p202202"
    ensures ToDateStr(Date(12 * 2022 + 1, 1, 0)) == "2022-02-01"
    ensures ParsePartitionName("p202202") == Some(Date(12 * 2022 + 1, 1, 0))
  {
    hide Decimal, PadTwo, ParsePartitionName;
    Digits2022();
    NameReadsBackIff(12 * 2022 + 1);
    assert "p" + "2022" + "02" == "p202202";
    assert "2022" + "-" + "02" + "-" + "01" == "2022-02-01";
  }
}
