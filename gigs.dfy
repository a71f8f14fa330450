/** `src/lib/gigs.ts`: the feed's conversion of a gig as the API sends it into the event
    a card shows. The API's date is a number (seconds or milliseconds since the epoch) or
    a string in one of several shapes; every shape is normalised to `YYYY-MM-DD`. */
module Gigs {
  import opened Common
  import opened Text
  import opened Dates
  import opened Utils

  /** `date: string | number` */
  datatype GigDate = NumDate(n: int) | StrDate(s: string)

  /** The fields of a gig in the API's response that the feed reads. */
  datatype GigDto = GigDto(
    title: string,
    date: GigDate,
    venue: string,
    ticketsUrl: string,
    posterUrl: Option<string>,
    calendarUrl: Option<string>)

  /** The event object `gigDtoToEvent` builds. */
  datatype Event = Event(
    id: string,
    date: string,
    poster: Option<string>,
    title: string,
    venue: string,
    ticketsUrl: string,
    calendarUrl: Option<string>)

  const MsThreshold: int := 1_000_000_000_000

  /** `toMs`: below 10^12 a value is read as seconds. */
  function ToMs(n: int): int {
    if n < MsThreshold then n * 1000 else n
  }

  /** The local `YYYY-MM-DD` of an epoch value. */
  function YmdOfEpoch(env: DateEnv, n: int): string {
    ToLocalYmdOfDate(env.localDate(ToMs(n)))
  }

  /** `gigDateToYMD`: numbers and digit strings by the epoch; a string with a 'T' by its
      first ten characters; `YYYY-MM-DD` as it is; otherwise by `Date` parsing, and the
      trimmed string itself when that fails. */
  function GigDateToYmd(env: DateEnv, date: GigDate): string {
    match date
    case NumDate(n) => YmdOfEpoch(env, n)
    case StrDate(raw) =>
      var s := Trim(raw);
      if AllDigits(s) then YmdOfEpoch(env, DigitsValue(s))
      else if HasTimePart(s) then Slice10(s)
      else if IsYmdShape(s) then s
      else match env.parse(s)
        case Some(ms) => ToLocalYmdOfDate(env.localDate(ms))
        case None => s
  }

  /** `${date}-${idx}` */
  function EventId(date: string, idx: int): string {
    date + "-" + IntToString(idx)
  }

  function GigDtoToEvent(env: DateEnv, gig: GigDto, idx: int): Event {
    var date := GigDateToYmd(env, gig.date);
    Event(EventId(date, idx), date, gig.posterUrl, gig.title, gig.venue, gig.ticketsUrl, gig.calendarUrl)
  }

  // ---------------------------------------------------------------- properties

  /** Values below 10^12 are multiplied by 1000 and all others kept, so a time in seconds
      and the same time in milliseconds are one instant. */
  lemma ToMsSecondsAndMillis(secs: int)
    requires 1_000_000_000 <= secs < MsThreshold
    ensures ToMs(secs) == secs * 1000 && ToMs(secs * 1000) == secs * 1000
  {
  }

  /** A numeric date and its digit string, with or without surrounding white space,
      normalise alike. */
  lemma NumberAndDigitsAgree(env: DateEnv, n: nat, pad: string)
    requires IsBlank(pad)
    ensures GigDateToYmd(env, NumDate(n)) == GigDateToYmd(env, StrDate(NatToString(n)))
    ensures GigDateToYmd(env, NumDate(n)) == GigDateToYmd(env, StrDate(pad + NatToString(n) + pad))
  {
    var d := NatToString(n);
    DigitsOfNatToString(n);
    TrimOfTrimmed(d);
    TrimPadded(pad, d);
  }

  lemma TrimPadded(pad: string, s: string)
    requires IsBlank(pad) && s != [] && !IsSpace(s[0]) && !IsSpace(s[|s| - 1])
    ensures Trim(pad + s + pad) == s
  {
    TrimLeadingPadded(pad, s + pad);
    TrimEndPadded(s, pad);
    assert pad + s + pad == pad + (s + pad);
  }

  lemma {:induction false} TrimLeadingPadded(pad: string, s: string)
    requires IsBlank(pad) && s != [] && !IsSpace(s[0])
    ensures Trim(pad + s) == TrimEnd(s)
  {
    if pad != [] {
      assert (pad + s)[1..] == pad[1..] + s;
      TrimLeadingPadded(pad[1..], s);
    } else {
      assert pad + s == s;
    }
  }

  lemma {:induction false} TrimEndPadded(s: string, pad: string)
    requires IsBlank(pad) && s != [] && !IsSpace(s[|s| - 1])
    ensures TrimEnd(s + pad) == s
  {
    if pad != [] {
      var p' := pad[..|pad| - 1];
      assert (s + pad)[..|s + pad| - 1] == s + p';
      TrimEndPadded(s, p');
    } else {
      assert s + pad == s;
    }
  }

  /** A string with a 'T' yields its first ten characters (a digit string has no 'T'). */
  lemma GigDateWithTime(env: DateEnv, raw: string)
    requires HasTimePart(Trim(raw))
    ensures GigDateToYmd(env, StrDate(raw)) == Slice10(Trim(raw))
  {
    var s := Trim(raw);
    var k :| 0 <= k < |s| && s[k] == 'T';
    assert !IsDigit(s[k]);
  }

  /** A `YYYY-MM-DD` string passes unchanged (it has neither only digits nor a 'T'). */
  lemma GigDateOfYmd(env: DateEnv, raw: string)
    requires IsYmdShape(Trim(raw))
    ensures GigDateToYmd(env, StrDate(raw)) == Trim(raw)
  {
    var s := Trim(raw);
    assert !IsDigit(s[4]);
    assert 'T' !in s by {
      forall k | 0 <= k < |s| ensures s[k] != 'T' {
        assert k == 4 || k == 7 || IsDigit(s[k]);
      }
    }
  }

  /** A string that no rule and no parse accepts is returned trimmed: the conversion
      never fails. */
  lemma GigDateFallback(env: DateEnv, raw: string)
    requires !AllDigits(Trim(raw)) && !HasTimePart(Trim(raw)) && !IsYmdShape(Trim(raw))
    requires env.parse(Trim(raw)).None?
    ensures GigDateToYmd(env, StrDate(raw)) == Trim(raw)
  {
  }

  /** The id is the normalised date, a '-' and the index; the other fields are copied. */
  lemma GigDtoToEventFields(env: DateEnv, gig: GigDto, idx: int)
    ensures var e := GigDtoToEvent(env, gig, idx);
      e.date == GigDateToYmd(env, gig.date) && e.id == e.date + "-" + IntToString(idx) &&
      e.poster == gig.posterUrl && e.title == gig.title && e.venue == gig.venue &&
      e.ticketsUrl == gig.ticketsUrl && e.calendarUrl == gig.calendarUrl
  {
  }

  /** Two strings that end in '-' and a piece without '-' agree on that piece. */
  lemma SameLastPiece(a: string, x: string, b: string, y: string)
    requires a + "-" + x == b + "-" + y
    requires '-' !in x && '-' !in y
    ensures x == y
  {
    var s := a + "-" + x;
    if |x| < |y| {
      PieceAt(b, y, |y| - |x| - 1);
      assert false;
    } else if |y| < |x| {
      PieceAt(a, x, |x| - |y| - 1);
      assert false;
    }
    assert x == s[|s| - |x|..];
    assert y == s[|s| - |y|..];
  }

  lemma PieceAt(b: string, y: string, i: int)
    requires 0 <= i < |y|
    ensures (b + "-" + y)[|b| + 1 + i] == y[i]
  {
  }

  lemma NoHyphenInDigits(n: nat)
    ensures '-' !in NatToString(n)
  {
    var d := NatToString(n);
    assert forall k :: 0 <= k < |d| ==> IsDigit(d[k]);
  }

  /** Distinct non-negative indices give distinct ids, whatever the dates. */
  lemma EventIdsDistinct(d1: string, i1: nat, d2: string, i2: nat)
    requires i1 != i2
    ensures EventId(d1, i1) != EventId(d2, i2)
  {
    if EventId(d1, i1) == EventId(d2, i2) {
      NoHyphenInDigits(i1);
      NoHyphenInDigits(i2);
      SameLastPiece(d1, NatToString(i1), d2, NatToString(i2));
      NatToStringInjective(i1, i2);
    }
  }
}
