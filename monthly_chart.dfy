/**
 * The data behind the bar chart of components/MonthlyChart.tsx: expenses
 * are bucketed by the day of month their date names, giving 31 per-day
 * totals, and the x axis labels day 1 and every fifth day.
 */
module MonthlyChart {
  import opened Wrappers

  /** An element of the chart's input: an amount and a `YYYY-MM-DD` date. */
  datatype ChartExpense = ChartExpense(amount: real, date: string)

  // ------------------------------------------------------ String.split('-')

  /** String.prototype.split with a one-character separator. */
  function Split(s: string, sep: char): (parts: seq<string>)
    ensures |parts| >= 1
    ensures forall i :: 0 <= i < |parts| ==> sep !in parts[i]
  {
    if s == [] then [""]
    else
      var rest := Split(s[1..], sep);
      if s[0] == sep then [""] + rest
      else [[s[0]] + rest[0]] + rest[1..]
  }

  /** Array.prototype.join, the inverse of Split. */
  function Join(parts: seq<string>, sep: char): string
    requires |parts| >= 1
  {
    if |parts| == 1 then parts[0] else parts[0] + [sep] + Join(parts[1..], sep)
  }

  lemma {:induction false} JoinSplit(s: string, sep: char)
    ensures Join(Split(s, sep), sep) == s
  {
    if s != [] {
      JoinSplit(s[1..], sep);
      var rest := Split(s[1..], sep);
      if s[0] != sep {
        if |rest| > 1 {
          assert ([[s[0]] + rest[0]] + rest[1..])[1..] == rest[1..];
        }
      }
    }
  }

  /** Splitting a text that starts with a separator-free field yields that field first. */
  lemma {:induction false} SplitField(a: string, sep: char, b: string)
    requires sep !in a
    ensures Split(a + [sep] + b, sep) == [a] + Split(b, sep)
  {
    var s := a + [sep] + b;
    if a != [] {
      assert s[0] == a[0] && s[1..] == a[1..] + [sep] + b;
      SplitField(a[1..], sep, b);
      var rest := Split(s[1..], sep);
      assert rest[0] == a[1..] && rest[1..] == Split(b, sep);
      assert [a[0]] + a[1..] == a;
    } else {
      assert s[0] == sep && s[1..] == b;
    }
  }

  lemma {:induction false} SplitWhole(s: string, sep: char)
    requires sep !in s
    ensures Split(s, sep) == [s]
  {
    if s != [] {
      assert s[0] != sep && sep !in s[1..];
      SplitWhole(s[1..], sep);
      assert [s[0]] + s[1..] == s;
    }
  }

  // --------------------------------------------------------- parseInt(s, 10)

  /** The characters parseInt skips at the start (ECMAScript StrWhiteSpaceChar). */
  predicate IsJsWhitespace(c: char) {
    c == '\t' || c == '\n' || c == '\U{000B}' || c == '\U{000C}' || c == '\r' || c == ' ' ||
    c == '\U{00A0}' || c == '\U{1680}' || ('\U{2000}' <= c <= '\U{200A}') ||
    c == '\U{2028}' || c == '\U{2029}' || c == '\U{202F}' || c == '\U{205F}' ||
    c == '\U{3000}' || c == '\U{FEFF}'
  }

  predicate IsDigit(c: char) { '0' <= c <= '9' }

  /** Every character is white space. */
  predicate Blank(s: string) {
    s == [] || (IsJsWhitespace(s[0]) && Blank(s[1..]))
  }

  function TrimStart(s: string): (r: string)
    ensures |r| <= |s| && r == s[|s| - |r|..]
    ensures r == [] || !IsJsWhitespace(r[0])
    ensures Blank(s[..|s| - |r|])
  {
    if s != [] && IsJsWhitespace(s[0]) then
      var r := TrimStart(s[1..]);
      assert s[..|s| - |r|][1..] == s[1..][..|s| - 1 - |r|];
      r
    else s
  }

  /** The longest prefix made of decimal digits. */
  function LeadingDigits(s: string): (r: string)
    ensures r <= s
    ensures forall i :: 0 <= i < |r| ==> IsDigit(r[i])
    ensures |r| < |s| ==> !IsDigit(s[|r|])
  {
    if s != [] && IsDigit(s[0]) then [s[0]] + LeadingDigits(s[1..]) else []
  }

  function DigitValue(c: char): nat
    requires IsDigit(c)
  {
    c as int - '0' as int
  }

  /** The number a run of decimal digits denotes, most significant first. */
  function DigitsValue(ds: string): nat
    requires forall i :: 0 <= i < |ds| ==> IsDigit(ds[i])
  {
    if ds == [] then 0
    else DigitsValue(ds[..|ds| - 1]) * 10 + DigitValue(ds[|ds| - 1])
  }

  /** parseInt(s, 10): skip white space, then read an optional sign and as many digits as there are; NaN (None) without any. */
  function ParseInt(s: string): (r: Option<int>)
    ensures TrimStart(s) == [] ==> r.None?
  {
    var t := TrimStart(s);
    var negative := t != [] && t[0] == '-';
    var body := if t != [] && (t[0] == '+' || t[0] == '-') then t[1..] else t;
    var ds := LeadingDigits(body);
    var magnitude: int := DigitsValue(ds);
    if ds == [] then None
    else if negative then Some(-magnitude)
    else Some(magnitude)
  }

  /** `parseInt(date.split('-')[2], 10)`: the third field is `undefined`, hence NaN, when there is none. */
  function DayOf(date: string): Option<int> {
    var fields := Split(date, '-');
    if |fields| < 3 then None else ParseInt(fields[2])
  }

  // ----------------------------------------------------- Number.toString()

  function DigitChar(d: nat): (c: char)
    requires d < 10
    ensures IsDigit(c) && DigitValue(c) == d
  {
    (d + '0' as int) as char
  }

  /** The decimal numeral of n, without leading zeros. */
  function NatToString(n: nat): (s: string)
    ensures |s| >= 1
    ensures forall i :: 0 <= i < |s| ==> IsDigit(s[i])
    ensures s[0] == '0' ==> n == 0
  {
    if n < 10 then [DigitChar(n)] else NatToString(n / 10) + [DigitChar(n % 10)]
  }

  lemma {:induction false} NatToStringValue(n: nat)
    ensures DigitsValue(NatToString(n)) == n
  {
    if n >= 10 {
      NatToStringValue(n / 10);
      var s := NatToString(n);
      assert s[..|s| - 1] == NatToString(n / 10);
    }
  }

  lemma {:induction false} LeadingDigitsAll(s: string)
    requires forall i :: 0 <= i < |s| ==> IsDigit(s[i])
    ensures LeadingDigits(s) == s
  {
    if s != [] { LeadingDigitsAll(s[1..]); }
  }

  /** parseInt reads back what toString wrote. */
  lemma ParseNatToString(n: nat)
    ensures ParseInt(NatToString(n)) == Some(n)
  {
    var s := NatToString(n);
    assert !IsJsWhitespace(s[0]);
    assert TrimStart(s) == s;
    LeadingDigitsAll(s);
    NatToStringValue(n);
  }

  /** A run of digits reads as the number it denotes. */
  lemma ParseDigits(ds: string)
    requires ds != [] && forall i :: 0 <= i < |ds| ==> IsDigit(ds[i])
    ensures ParseInt(ds) == Some(DigitsValue(ds))
  {
    assert IsDigit(ds[0]);
    assert !IsJsWhitespace(ds[0]);
    assert TrimStart(ds) == ds;
    LeadingDigitsAll(ds);
  }

  /** Text that starts with anything other than white space, a sign or a digit reads as NaN; so does the empty string. */
  lemma ParseIntNaN(s: string)
    requires s == [] || (!IsJsWhitespace(s[0]) && !IsDigit(s[0]) && s[0] != '+' && s[0] != '-')
    ensures ParseInt(s) == None
  {
  }

  /** The day of `year-month-rest` is whatever parseInt reads from `rest`. */
  lemma DayOfFields(year: string, month: string, rest: string)
    requires '-' !in year && '-' !in month && '-' !in rest
    ensures DayOf(year + "-" + month + "-" + rest) == ParseInt(rest)
  {
    assert year + "-" + month + "-" + rest == year + ['-'] + (month + ['-'] + rest);
    SplitField(year, '-', month + ['-'] + rest);
    SplitField(month, '-', rest);
    SplitWhole(rest, '-');
  }

  /**
   * A date written `year-month-day`, the day being any run of digits (the
   * zero-padded `05` of an ISO date included), falls on the day's value.
   */
  lemma DayOfDate(year: string, month: string, day: string)
    requires '-' !in year && '-' !in month
    requires day != [] && forall i :: 0 <= i < |day| ==> IsDigit(day[i])
    ensures DayOf(year + "-" + month + "-" + day) == Some(DigitsValue(day))
  {
    forall i | 0 <= i < |day| ensures day[i] != '-' {
      assert IsDigit(day[i]);
    }
    DayOfFields(year, month, day);
    ParseDigits(day);
  }

  // ------------------------------------------------------------ the buckets

  /** The total the reduce accumulates under key `day` (None is JavaScript's NaN key). */
  function DayTotal(xs: seq<ChartExpense>, day: Option<int>): real
  {
    if xs == [] then 0.0
    else DayTotal(xs[..|xs| - 1], day) + (if DayOf(xs[|xs| - 1].date) == day then xs[|xs| - 1].amount else 0.0)
  }

  /** A day no expense falls on totals 0. */
  lemma {:induction false} DayTotalNone(xs: seq<ChartExpense>, day: Option<int>)
    requires forall i :: 0 <= i < |xs| ==> DayOf(xs[i].date) != day
    ensures DayTotal(xs, day) == 0.0
  {
    if xs != [] { DayTotalNone(xs[..|xs| - 1], day); }
  }

  /** Bucket totals add up over concatenation, so the order of the input does not matter. */
  lemma {:induction false} DayTotalConcat(xs: seq<ChartExpense>, ys: seq<ChartExpense>, day: Option<int>)
    ensures DayTotal(xs + ys, day) == DayTotal(xs, day) + DayTotal(ys, day)
    decreases |ys|
  {
    if ys != [] {
      assert (xs + ys)[..|xs + ys| - 1] == xs + ys[..|ys| - 1];
      DayTotalConcat(xs, ys[..|ys| - 1], day);
    } else {
      assert xs + ys == xs;
    }
  }

  /** The buckets the first n expenses fall into. */
  ghost function DaysAmong(xs: seq<ChartExpense>, n: int): set<Option<int>>
    requires 0 <= n <= |xs|
  {
    set i | 0 <= i < n :: DayOf(xs[i].date)
  }

  /** One more expense adds its amount to its own bucket only. */
  lemma DayTotalStep(xs: seq<ChartExpense>, n: int, day: Option<int>)
    requires 0 <= n < |xs|
    ensures DayTotal(xs[..n + 1], day) == DayTotal(xs[..n], day) + (if DayOf(xs[n].date) == day then xs[n].amount else 0.0)
  {
    var ys := xs[..n + 1];
    assert ys[..|ys| - 1] == xs[..n] && ys[|ys| - 1] == xs[n];
  }

  lemma DaysAmongStep(xs: seq<ChartExpense>, n: int)
    requires 0 <= n < |xs|
    ensures DaysAmong(xs, n + 1) == DaysAmong(xs, n) + {DayOf(xs[n].date)}
  {
    forall d | d in DaysAmong(xs, n + 1) ensures d in DaysAmong(xs, n) + {DayOf(xs[n].date)} {
      var i :| 0 <= i < n + 1 && DayOf(xs[i].date) == d;
      if i < n { assert DayOf(xs[i].date) in DaysAmong(xs, n); }
    }
    forall d | d in DaysAmong(xs, n) ensures d in DaysAmong(xs, n + 1) {
      var i :| 0 <= i < n && DayOf(xs[i].date) == d;
      assert DayOf(xs[i].date) in DaysAmong(xs, n + 1);
    }
    assert DayOf(xs[n].date) in DaysAmong(xs, n + 1);
  }

  /** A bucket no expense among the first n falls into totals 0 over them. */
  lemma AbsentDayTotal(xs: seq<ChartExpense>, n: int, day: Option<int>)
    requires 0 <= n <= |xs| && day !in DaysAmong(xs, n)
    ensures DayTotal(xs[..n], day) == 0.0
  {
    forall i | 0 <= i < n ensures DayOf(xs[..n][i].date) != day {
      assert DayOf(xs[i].date) in DaysAmong(xs, n);
    }
    DayTotalNone(xs[..n], day);
  }

  /**
   * The reduce: `acc[day] = (acc[day] || 0) + amount` for each expense in
   * turn. A key is present exactly for the days some expense falls on.
   */
  method GroupByDay(expenses: seq<ChartExpense>) returns (acc: map<Option<int>, real>)
    ensures acc.Keys == DaysAmong(expenses, |expenses|)
    ensures forall day :: day in acc ==> acc[day] == DayTotal(expenses, day)
  {
    acc := map[];
    var n := 0;
    while n < |expenses|
      invariant 0 <= n <= |expenses|
      invariant Grouped(expenses, n, acc)
    {
      var day := DayOf(expenses[n].date);
      var sofar := if day in acc then acc[day] else 0.0;
      GroupStep(expenses, n, acc, day, sofar);
      acc := acc[day := sofar + expenses[n].amount];
      n := n + 1;
    }
    assert expenses[..n] == expenses;
  }

  /** `daysInMonth.map(day => dailyTotals[day] || 0)`. */
  function DataValues(acc: map<Option<int>, real>): (values: seq<real>)
    ensures |values| == 31
    ensures forall i :: 0 <= i < 31 ==> values[i] == if Some(i + 1) in acc then acc[Some(i + 1)] else 0.0
  {
    seq(31, i => if Some(i + 1) in acc then acc[Some(i + 1)] else 0.0)
  }

  /** `acc` holds, for each day among the first n expenses, that day's total over them. */
  ghost predicate Grouped(xs: seq<ChartExpense>, n: int, acc: map<Option<int>, real>)
    requires 0 <= n <= |xs|
  {
    && acc.Keys == DaysAmong(xs, n)
    && forall d :: d in acc ==> acc[d] == DayTotal(xs[..n], d)
  }

  /** One turn of the reduce keeps the accumulator equal to the bucket totals of the prefix read so far. */
  lemma GroupStep(xs: seq<ChartExpense>, n: int, acc: map<Option<int>, real>, day: Option<int>, sofar: real)
    requires 0 <= n < |xs|
    requires day == DayOf(xs[n].date)
    requires Grouped(xs, n, acc)
    requires sofar == if day in acc then acc[day] else 0.0
    ensures Grouped(xs, n + 1, acc[day := sofar + xs[n].amount])
  {
    var next := acc[day := sofar + xs[n].amount];
    DaysAmongStep(xs, n);
    assert next.Keys == DaysAmong(xs, n + 1);
    forall d | d in next ensures next[d] == DayTotal(xs[..n + 1], d) {
      DayTotalStep(xs, n, d);
      if d == day && day !in acc {
        AbsentDayTotal(xs, n, day);
      }
    }
  }

  /** The chart's bar heights: entry i is the total of the expenses falling on day i + 1. */
  method DailyValues(expenses: seq<ChartExpense>) returns (values: seq<real>)
    ensures |values| == 31
    ensures forall i :: 0 <= i < 31 ==> values[i] == DayTotal(expenses, Some(i + 1))
  {
    var acc := GroupByDay(expenses);
    values := DataValues(acc);
    forall i | 0 <= i < 31 ensures values[i] == DayTotal(expenses, Some(i + 1)) {
      BucketOrZero(expenses, acc, Some(i + 1));
    }
  }

  /** What `dailyTotals[day] || 0` reads from the reduce's result. */
  lemma BucketOrZero(expenses: seq<ChartExpense>, acc: map<Option<int>, real>, day: Option<int>)
    requires acc.Keys == DaysAmong(expenses, |expenses|)
    requires forall d :: d in acc ==> acc[d] == DayTotal(expenses, d)
    ensures (if day in acc then acc[day] else 0.0) == DayTotal(expenses, day)
  {
    if day !in acc {
      AbsentDayTotal(expenses, |expenses|, day);
      assert expenses[..|expenses|] == expenses;
    }
  }

  /** An expense whose date parses to no day in 1..31 moves no bar, wherever it sits in the input. */
  lemma OutOfRangeIgnored(xs: seq<ChartExpense>, e: ChartExpense, ys: seq<ChartExpense>, i: int)
    requires 0 <= i < 31
    requires DayOf(e.date).None? || !(1 <= DayOf(e.date).value <= 31)
    ensures DayTotal(xs + [e] + ys, Some(i + 1)) == DayTotal(xs + ys, Some(i + 1))
  {
    DayTotalConcat(xs + [e], ys, Some(i + 1));
    DayTotalConcat(xs, ys, Some(i + 1));
    assert (xs + [e])[..|xs + [e]| - 1] == xs;
  }

  // ------------------------------------------------------------- the labels

  /** The label under day d: its numeral for day 1 and every multiple of 5, otherwise blank. */
  function Label(d: nat): (caption: string)
    ensures caption != "" <==> d % 5 == 0 || d == 1
    ensures caption != "" ==> caption == NatToString(d)
  {
    if d % 5 == 0 || d == 1 then NatToString(d) else ""
  }

  /** A label that is shown reads back as its day. */
  lemma LabelParses(d: nat)
    requires Label(d) != ""
    ensures ParseInt(Label(d)) == Some(d)
  {
    ParseNatToString(d);
  }

  /** `daysInMonth.map(d => d % 5 === 0 || d === 1 ? d.toString() : '')`. */
  function AxisLabels(): (labels: seq<string>)
    ensures |labels| == 31
    ensures forall i :: 0 <= i < 31 ==> labels[i] == Label(i + 1)
  {
    seq(31, i requires 0 <= i < 31 => Label(i + 1))
  }
}
