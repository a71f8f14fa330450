/** The JavaScript `Date` facilities the application uses, as an environment: the local
    calendar fields of an instant and the parsing of a free-form date string depend on the
    browser's time zone and implementation, so they are parameters of the model, not
    definitions. The date shape every component checks for, `/^\d{4}-\d{2}-\d{2}$/`, is
    defined here once. It is the shape of the `full-date` of section 5.6 of RFC 3339, but
    it checks digits only, not the ranges of month and day. */
module Dates {
  import opened Common
  import opened Text

  /** `getFullYear()`, `getMonth() + 1` and `getDate()` of a valid `Date`. */
  datatype LocalDate = LocalDate(year: int, month: nat, day: nat)

  datatype DateEnv = DateEnv(
    /** `new Date(ms)` read in local time; None is an Invalid Date. */
    localDate: int -> Option<LocalDate>,
    /** `new Date(s).getTime()`; None is NaN. */
    parse: string -> Option<int>,
    /** `new Date(ms).toISOString().slice(0, 10)` of a valid instant. */
    isoDay: int -> string
  )

  /** `/^\d{4}-\d{2}-\d{2}$/.test(s)` */
  predicate IsYmdShape(s: string) {
    |s| == 10 && s[4] == '-' && s[7] == '-' &&
    IsDigit(s[0]) && IsDigit(s[1]) && IsDigit(s[2]) && IsDigit(s[3]) &&
    IsDigit(s[5]) && IsDigit(s[6]) && IsDigit(s[8]) && IsDigit(s[9])
  }

  /** `s.includes('T')` */
  predicate HasTimePart(s: string) { 'T' in s }

  /** `s.slice(0, 10)`: the longest prefix of at most ten characters. */
  function Slice10(s: string): (r: string)
    ensures r <= s
    ensures |r| == if |s| < 10 then |s| else 10
  {
    if |s| < 10 then s else s[..10]
  }
}
