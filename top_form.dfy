/** `src/app/_components/TopForm.tsx`: the header's month label and date picker. The
    label and the month the picker opens on come from the first two `-`-separated
    fields of the visible event date; only the available dates can be picked. The
    current date, `new Date()`, is a parameter. */
module TopForm {
  import opened Common
  import opened Text
  import opened Dates
  import opened Utils

  /** `toLocaleString('en-US', { month: 'long' })` by month index. */
  const MonthNames: seq<string> := ["January", "February", "March", "April", "May", "June", "July",
                                    "August", "September", "October", "November", "December"]

  /** The label when there is no month to show. */
  const NoMonth := "\U{2014}"

  /** `const [y, m] = s.split('-').map(Number); if (!y || !m) …`: the year and month
      when both are truthy numbers. An empty or absent string has none. */
  function YearMonth(s: Option<string>): (r: Option<(nat, nat)>)
    ensures r.Some? ==> r.value.0 >= 1 && r.value.1 >= 1
  {
    if s.None? || s.value == "" then None
    else
      var parts := Split(s.value, '-');
      var y := ToNumber(parts[0]);
      var m := if |parts| >= 2 then ToNumber(parts[1]) else NaN; // `undefined` is falsy
      if !y.Truthy() || !m.Truthy() then None else Some((y.value, m.value))
  }

  /** `formatDisplayMonth`: the name of the month of `new Date(y, m - 1, 1)` and the
      year as parsed. A month past 12 carries into the next year, so its name is that of
      `(m - 1) % 12`. */
  function FormatDisplayMonth(s: Option<string>): string {
    var ym := YearMonth(s);
    if ym.None? then NoMonth else MonthLabel(ym.value.0, ym.value.1)
  }

  /** The label of month `m` of year `y`. */
  function MonthLabel(y: nat, m: nat): string
    requires m >= 1
  {
    MonthNames[(m - 1) % 12] + " " + NatToString(y)
  }

  /** `new Date(y, m - 1, 1)` read in local fields: a year from 0 to 99 means 1900 to
      1999, and the months past December carry into the year. */
  function FirstOfMonth(y: nat, m: nat): LocalDate
    requires m >= 1
  {
    var year := if y <= 99 then 1900 + y else y;
    LocalDate(year + (m - 1) / 12, (m - 1) % 12 + 1, 1)
  }

  /** `monthFromVisibleDate`. */
  function MonthFromVisibleDate(s: Option<string>): Option<LocalDate> {
    match YearMonth(s)
    case None => None
    case Some((y, m)) => Some(FirstOfMonth(y, m))
  }

  /** A missing or empty date, or a year or month that is 0 or not a number, gives the
      dash; so does a string without a month field. */
  lemma DashRules(s: Option<string>)
    ensures s.None? || s == Some("") ==> FormatDisplayMonth(s) == NoMonth
    ensures s.Some? && s.value != "" ==> (var parts := Split(s.value, '-');
      FormatDisplayMonth(s) == NoMonth <==>
        !ToNumber(parts[0]).Truthy() || |parts| < 2 || !ToNumber(parts[1]).Truthy())
  {
    if s.Some? && s.value != "" && YearMonth(s).Some? {
      var (y, m) := YearMonth(s).value;
      assert MonthNames[(m - 1) % 12] != [];
      assert FormatDisplayMonth(s)[0] != NoMonth[0];
    }
  }

  /** For a date `<y>-<m>`, alone or followed by `-…`, with digit fields, a year from 1 and a month from 1 to 12,
      the label is that month's name and the year's value. */
  lemma LabelOfDate(y: string, m: string, rest: string)
    requires y != "" && AllDigits(y) && DigitsValue(y) >= 1
    requires m != "" && AllDigits(m) && 1 <= DigitsValue(m) <= 12
    requires rest == "" || rest[0] == '-'
    ensures FormatDisplayMonth(Some(y + "-" + m + rest)) ==
      MonthNames[DigitsValue(m) - 1] + " " + NatToString(DigitsValue(y))
    ensures MonthFromVisibleDate(Some(y + "-" + m + rest)) ==
      Some(LocalDate(if DigitsValue(y) <= 99 then 1900 + DigitsValue(y) else DigitsValue(y), DigitsValue(m), 1))
  {
    var yv, mv := DigitsValue(y), DigitsValue(m);
    YearMonthOfDate(y, m, rest);
    LabelOfYearMonth(Some(y + "-" + m + rest), yv, mv);
    PickerOfYearMonth(Some(y + "-" + m + rest), yv, mv);
  }

  lemma LabelOfYearMonth(s: Option<string>, y: nat, m: nat)
    requires YearMonth(s) == Some((y, m)) && 1 <= m <= 12
    ensures FormatDisplayMonth(s) == MonthNames[m - 1] + " " + NatToString(y)
  {
    assert FormatDisplayMonth(s) == MonthLabel(y, m);
    MonthInYear(m);
  }

  lemma PickerOfYearMonth(s: Option<string>, y: nat, m: nat)
    requires YearMonth(s) == Some((y, m)) && 1 <= m <= 12
    ensures MonthFromVisibleDate(s) == Some(LocalDate(if y <= 99 then 1900 + y else y, m, 1))
  {
    MonthInYear(m);
  }

  lemma MonthInYear(m: nat)
    requires 1 <= m <= 12
    ensures (m - 1) % 12 == m - 1 && (m - 1) / 12 == 0
  {
  }

  lemma YearMonthOfDate(y: string, m: string, rest: string)
    requires y != "" && AllDigits(y) && DigitsValue(y) >= 1
    requires m != "" && AllDigits(m) && DigitsValue(m) >= 1
    requires rest == "" || rest[0] == '-'
    ensures YearMonth(Some(y + "-" + m + rest)) == Some((DigitsValue(y), DigitsValue(m)))
  {
    assert '-' !in y by {
      forall i | 0 <= i < |y| ensures y[i] != '-' { assert IsDigit(y[i]); }
    }
    assert '-' !in m by {
      forall i | 0 <= i < |m| ensures m[i] != '-' { assert IsDigit(m[i]); }
    }
    SplitTwoFields(y, m, rest);
    assert Split(rest, '-')[0] == "";
    assert m + "" == m;
    ToNumberOfDigits(y);
    ToNumberOfDigits(m);
  }

  /** Splitting `<y>-<m><rest>` starts with `y`, then `m` followed by whatever of
      `rest` comes before its first '-'. */
  lemma SplitTwoFields(y: string, m: string, rest: string)
    requires '-' !in y && '-' !in m && m != ""
    ensures var parts := Split(y + "-" + m + rest, '-');
      |parts| >= 2 && parts[0] == y && parts[1] == m + Split(rest, '-')[0]
  {
    assert y + "-" + m + rest == y + ['-'] + (m + rest);
    SplitAtSeparator(y, m + rest, '-');
    SplitPrefix(m, rest);
  }

  /** A prefix without the separator joins the first piece. */
  lemma {:induction false} SplitPrefix(m: string, rest: string)
    requires '-' !in m
    ensures Split(m + rest, '-')[0] == m + Split(rest, '-')[0]
    ensures |Split(m + rest, '-')| == |Split(rest, '-')|
    decreases |m|
  {
    if m != [] {
      assert (m + rest)[1..] == m[1..] + rest;
      SplitPrefix(m[1..], rest);
      assert m == [m[0]] + m[1..];
    } else {
      assert m + rest == rest;
    }
  }

  /** The label and the month the picker opens on name the same month; they name the
      same year only when the year is at least 100 and the month at most 12. */
  lemma LabelAgreesWithPicker(s: Option<string>)
    ensures FormatDisplayMonth(s) == NoMonth <==> MonthFromVisibleDate(s).None?
    ensures MonthFromVisibleDate(s).Some? ==> (var (y, m) := YearMonth(s).value; var d := MonthFromVisibleDate(s).value;
      FormatDisplayMonth(s) == MonthNames[d.month - 1] + " " + NatToString(y) &&
      (d.year == y <==> y >= 100 && m <= 12))
  {
    DashRules(s);
  }

  // ---------------------------------------------------------------- picking a day

  /** `disabledMatcher`: a day is disabled unless its local `YYYY-MM-DD` is one of the
      available dates (`new Set(availableDates ?? [])`). */
  predicate Disabled(day: LocalDate, availableDates: Option<seq<string>>) {
    ToLocalYmdOfDate(Some(day)) !in availableDates.GetOr([])
  }

  /** `handleDayClick`: the day handed to `onDayClick`, if there is one to call and the
      day is not disabled. */
  function HandleDayClick(day: LocalDate, disabled: bool, hasCallback: bool): Option<LocalDate> {
    if disabled || !hasCallback then None else Some(day)
  }

  /** A click reaches the callback exactly for an available day; without available
      dates no day can be picked. */
  lemma ClickRules(day: LocalDate, availableDates: Option<seq<string>>, hasCallback: bool)
    ensures var r := HandleDayClick(day, Disabled(day, availableDates), hasCallback);
      (r.Some? <==> hasCallback && ToLocalYmdOfDate(Some(day)) in availableDates.GetOr([])) &&
      (r.Some? ==> r.value == day)
    ensures availableDates.None? || availableDates == Some([]) ==> Disabled(day, availableDates)
  {
  }

  /** The popover's open flag and the month it shows. */
  datatype Picker = Picker(open: bool, month: Option<LocalDate>)

  /** `onOpenChange`: opening shows the month of the visible date, or today. */
  function OnOpenChange(p: Picker, nextOpen: bool, visible: Option<string>, today: LocalDate): Picker {
    if nextOpen then Picker(true, Some(MonthFromVisibleDate(visible).GetOr(today))) else p.(open := false)
  }

  /** Opening shows a month: when the label names a month, the picker opens on the
      first of the month the label names; when the label is the dash, on today.
      Closing keeps that month, and closing then reopening on the same visible date
      returns the same picker. */
  lemma OpenShowsLabelledMonth(p: Picker, visible: Option<string>, today: LocalDate)
    ensures var q := OnOpenChange(p, true, visible, today);
      q.open && q.month.Some? &&
      (FormatDisplayMonth(visible) == NoMonth ==> q.month == Some(today)) &&
      (FormatDisplayMonth(visible) != NoMonth ==>
        q.month.value.day == 1 &&
        FormatDisplayMonth(visible) == MonthNames[q.month.value.month - 1] + " " + NatToString(YearMonth(visible).value.0))
    ensures var q := OnOpenChange(p, true, visible, today);
      var closed := OnOpenChange(q, false, visible, today);
      !closed.open && closed.month == q.month && OnOpenChange(closed, true, visible, today) == q
  {
    LabelAgreesWithPicker(visible);
  }
}
