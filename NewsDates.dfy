/** The month window of `search_google_news` (ingest.py 507-514): a
    `YYYY-MM` search date becomes the first and the last day of that month,
    written as `YYYY-MM-DD` and as `MM/DD/YYYY`. */
module NewsDates {
  import opened Wrappers
  import opened Text

  /** `calendar.isleap`. */
  predicate IsLeap(year: nat) {
    year % 4 == 0 && (year % 100 != 0 || year % 400 == 0)
  }

  /** `calendar.monthrange(year, month)[1]`. */
  function DaysInMonth(year: nat, month: nat): nat
    requires 1 <= month <= 12
  {
    if month == 2 then (if IsLeap(year) then 29 else 28)
    else if month == 4 || month == 6 || month == 9 || month == 11 then 30
    else 31
  }

  /** The four date strings the search URLs are built from. */
  datatype Window = Window(dateAfter: string, dateBefore: string, dateMin: string, dateMax: string)

  /** Why the month branch fails: `year, month = search_date.split('-')`
      needs exactly two fields, `int()` needs digits, `monthrange` needs a
      month from 1 to 12; any other length goes to the day branch. */
  datatype DateError = NotTwoFields | NotANumber | IllegalMonth | DayFormat

  predicate IsNumeral(s: string) {
    |s| >= 1 && AllDigits(s)
  }

  function MonthWindow(searchDate: string): (r: Result<Window, DateError>)
    ensures |searchDate| != 7 <==> r == Err(DayFormat)
  {
    if |searchDate| != 7 then Err(DayFormat)
    else
      var fields := SplitOn(searchDate, '-');
      if |fields| != 2 then Err(NotTwoFields)
      else if !IsNumeral(fields[0]) || !IsNumeral(fields[1]) then Err(NotANumber)
      else
        var year := ParseDigits(fields[0]);
        var month := ParseDigits(fields[1]);
        if !(1 <= month <= 12) then Err(IllegalMonth)
        else
          var y := NatToString(year);
          var mm := ZeroPad2(month);
          var last := NatToString(DaysInMonth(year, month));
          Ok(Window(y + "-" + mm + "-01", y + "-" + mm + "-" + last,
                    mm + "/01/" + y, mm + "/" + last + "/" + y))
  }

  // ---- calendar facts ----

  /** February has 29 days exactly in leap years; every month has 28 to 31. */
  lemma MonthLengths(year: nat, month: nat)
    requires 1 <= month <= 12
    ensures 28 <= DaysInMonth(year, month) <= 31
    ensures DaysInMonth(year, 2) == 29 <==> IsLeap(year)
    ensures month != 2 ==> DaysInMonth(year, month) >= 30
  {
  }

  function DaysBefore(year: nat, month: nat): nat
    requires 1 <= month <= 13
    decreases month
  {
    if month == 1 then 0 else DaysBefore(year, month - 1) + DaysInMonth(year, month - 1)
  }

  /** The month lengths add up to the length of the year. */
  lemma YearLength(year: nat)
    ensures DaysBefore(year, 13) == if IsLeap(year) then 366 else 365
  {
  }

  // ---- decimal formatting ----

  lemma NatToStringLength4(n: nat)
    requires 1000 <= n <= 9999
    ensures |NatToString(n)| == 4
  {
    assert NatToString(n) == NatToString(n / 10) + [DigitChar(n % 10)];
    assert NatToString(n / 10) == NatToString(n / 100) + [DigitChar(n / 10 % 10)];
    assert NatToString(n / 100) == NatToString(n / 1000) + [DigitChar(n / 100 % 10)];
  }

  /** Two-digit padding of a month is read back as that month. */
  lemma ZeroPad2Parse(m: nat)
    requires m <= 99
    ensures |ZeroPad2(m)| == 2 && ParseDigits(ZeroPad2(m)) == m
  {
    var s := ZeroPad2(m);
    if m < 10 {
      assert s == ['0', DigitChar(m)];
      assert s[..|s| - 1] == "0";
      assert ParseDigits("0") == 0 by {
        assert "0"[..0] == "";
      }
    } else {
      ParseNatToString(m);
      assert NatToString(m) == NatToString(m / 10) + [DigitChar(m % 10)];
    }
  }

  /** `a + "-" + b` splits on `-` into `a` and `b` when both are numerals. */
  lemma SplitDate(a: string, b: string)
    requires IsNumeral(a) && IsNumeral(b)
    ensures SplitOn(a + "-" + b, '-') == [a, b]
  {
    forall p | p in [a, b] ensures '-' !in p {
      if '-' in p {
        var i :| 0 <= i < |p| && p[i] == '-';
      }
    }
    SplitOnJoin([a, b], '-');
    assert Join([a, b], "-") == a + "-" + Join([b], "-");
  }

  /** For a four-digit year and a month from 1 to 12, the window of the
      `YYYY-MM` string starts on day 01 and ends on the month's last day,
      with the month zero-padded. */
  lemma MonthWindowOfMonth(year: nat, month: nat)
    requires 1000 <= year <= 9999 && 1 <= month <= 12
    ensures var ym := NatToString(year) + "-" + ZeroPad2(month);
      var mm := ZeroPad2(month);
      var y := NatToString(year);
      var last := NatToString(DaysInMonth(year, month));
      |ym| == 7
      && MonthWindow(ym) == Ok(Window(ym + "-01", ym + "-" + last, mm + "/01/" + y, mm + "/" + last + "/" + y))
  {
    var y := NatToString(year);
    var mm := ZeroPad2(month);
    NatToStringLength4(year);
    ZeroPad2Parse(month);
    ParseNatToString(year);
    SplitDate(y, mm);
  }

  lemma FebruaryStrings()
    ensures ZeroPad2(2) == "02" && NatToString(29) == "29" && NatToString(28) == "28"
  {
    assert NatToString(29) == NatToString(2) + [DigitChar(9)];
    assert NatToString(28) == NatToString(2) + [DigitChar(8)];
  }

  /** In a leap year the February window ends on the 29th, otherwise on the 28th. */
  lemma FebruaryWindow(year: nat)
    requires 1000 <= year <= 9999
    ensures var ym := NatToString(year) + "-02";
      MonthWindow(ym).Ok?
      && MonthWindow(ym).value.dateBefore == ym + (if IsLeap(year) then "-29" else "-28")
  {
    var ym := NatToString(year) + "-02";
    FebruaryStrings();
    assert ym == NatToString(year) + "-" + ZeroPad2(2);
    MonthWindowOfMonth(year, 2);
    var last := NatToString(DaysInMonth(year, 2));
    assert MonthWindow(ym).value.dateBefore == ym + "-" + last;
    assert last == if IsLeap(year) then "29" else "28";
  }

  /** Month `00` and months above 12 are rejected by `monthrange`. */
  lemma IllegalMonthRejected(year: nat, month: nat)
    requires 1000 <= year <= 9999 && (month == 0 || 13 <= month <= 99)
    ensures MonthWindow(NatToString(year) + "-" + ZeroPad2(month)) == Err(IllegalMonth)
  {
    NatToStringLength4(year);
    ZeroPad2Parse(month);
    SplitDate(NatToString(year), ZeroPad2(month));
  }
}
