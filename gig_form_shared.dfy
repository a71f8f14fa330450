/** `src/app/gig-form/gig-form.shared.ts`: the gig form's values, the validation schema
    both forms resolve against, the default values, and the normalisation of a date the
    API returns into the `YYYY-MM-DD` the date input holds. */
module GigFormShared {
  import opened Common
  import opened Text
  import opened Dates

  /** What the form's inputs hold; an end date left empty is the empty string. */
  datatype GigFormValues = GigFormValues(
    title: string,
    date: string,
    endDate: string,
    city: string,
    country: string,
    venue: string,
    ticketsUrl: string)

  const TitleMessage := "Title must be at least 2 characters."
  const DateMessage := "Date must be in YYYY-MM-DD format."
  const EndDateMessage := "End Date must be in YYYY-MM-DD format."
  const CityMessage := "City is required."
  const CountryMessage := "Country is required."
  const VenueMessage := "Please enter venue."
  const TicketsUrlMessage := "Please enter a valid ticket URL."

  /** The end-date preprocessing: white space alone is no end date; anything else must
      have the date shape as it is. */
  predicate EndDateAccepted(endDate: string) {
    IsBlank(endDate) || IsYmdShape(endDate)
  }

  /** The issues the schema reports, in field order; `validUrl` is the URL check. */
  function SchemaIssues(v: GigFormValues, validUrl: string -> bool): seq<string> {
    (if |v.title| < 2 then [TitleMessage] else []) +
    (if !IsYmdShape(v.date) then [DateMessage] else []) +
    (if !EndDateAccepted(v.endDate) then [EndDateMessage] else []) +
    (if |v.city| < 1 then [CityMessage] else []) +
    (if |v.country| < 1 then [CountryMessage] else []) +
    (if |v.venue| < 2 then [VenueMessage] else []) +
    (if !validUrl(v.ticketsUrl) then [TicketsUrlMessage] else [])
  }

  /** The end date the schema outputs: absent when blank. */
  function ParsedEndDate(endDate: string): Option<string> {
    if IsBlank(endDate) then None else Some(endDate)
  }

  /** The values the schema hands to the submit handler: a blank end date comes out
      absent, written here as the empty string. */
  function SchemaOutput(v: GigFormValues): GigFormValues {
    v.(endDate := ParsedEndDate(v.endDate).GetOr(""))
  }

  const Defaults := GigFormValues("", "", "", "Barcelona", "ES", "", "")

  /** `dateToYMD`: absent or blank gives nothing; a 'T' keeps the first ten characters;
      the date shape passes; anything else goes through `Date` parsing. */
  function DateToYmd(env: DateEnv, date: Option<string>): Option<string> {
    if date.None? || date.value == "" then None
    else
      var s := Trim(date.value);
      if s == "" then None
      else if HasTimePart(s) then Some(Slice10(s))
      else if IsYmdShape(s) then Some(s)
      else match env.parse(s)
        case Some(ms) => Some(env.isoDay(ms))
        case None => None
  }

  // ---------------------------------------------------------------- properties

  /** The values pass exactly when every field meets its rule. */
  lemma SchemaAccepts(v: GigFormValues, validUrl: string -> bool)
    ensures SchemaIssues(v, validUrl) == [] <==>
      |v.title| >= 2 && IsYmdShape(v.date) && EndDateAccepted(v.endDate) &&
      |v.city| >= 1 && |v.country| >= 1 && |v.venue| >= 2 && validUrl(v.ticketsUrl)
  {
  }

  /** The schema's messages, in the order its fields are declared. */
  const Messages := [TitleMessage, DateMessage, EndDateMessage, CityMessage, CountryMessage,
                     VenueMessage, TicketsUrlMessage]

  /** Which fields fail their rule, in the same order. */
  function Failures(v: GigFormValues, validUrl: string -> bool): seq<bool> {
    [|v.title| < 2, !IsYmdShape(v.date), !EndDateAccepted(v.endDate), |v.city| < 1, |v.country| < 1, |v.venue| < 2, !validUrl(v.ticketsUrl)]
  }

  /** A field's message when it fails, nothing otherwise. */
  function IssueIf(fails: bool, message: string): seq<string> {
    if fails then [message] else []
  }

  /** The message of each failing field, in the order of `ms`. */
  function IssuesOf(ms: seq<string>, fails: seq<bool>): seq<string>
    requires |ms| == |fails|
  {
    if ms == [] then []
    else IssuesOf(ms[..|ms| - 1], fails[..|fails| - 1]) + IssueIf(fails[|fails| - 1], ms[|ms| - 1])
  }

  /** With pairwise different messages, a message is reported exactly when its field fails. */
  lemma {:induction false} IssuesOfMembers(ms: seq<string>, fails: seq<bool>, i: nat)
    requires |ms| == |fails| && i < |ms|
    requires forall j, k :: 0 <= j < k < |ms| ==> ms[j] != ms[k]
    ensures ms[i] in IssuesOf(ms, fails) <==> fails[i]
  {
    var n := |ms| - 1;
    if i == n {
      IssuesOfAvoids(ms[n], ms[..n], fails[..n]);
    } else {
      IssuesOfMembers(ms[..n], fails[..n], i);
    }
  }

  lemma {:induction false} IssuesOfAvoids(x: string, ms: seq<string>, fails: seq<bool>)
    requires |ms| == |fails| && x !in ms
    ensures x !in IssuesOf(ms, fails)
  {
    if ms != [] {
      IssuesOfAvoids(x, ms[..|ms| - 1], fails[..|fails| - 1]);
    }
  }

  /** The seven messages are pairwise different. */
  lemma MessagesDistinct()
    ensures forall i, j :: 0 <= i < j < |Messages| ==> Messages[i] != Messages[j]
  {
    assert TitleMessage[0] == 'T' && DateMessage[0] == 'D' && EndDateMessage[0] == 'E';
    assert CityMessage[..2] == "Ci" && CountryMessage[..2] == "Co";
    assert VenueMessage[0] == 'P' && VenueMessage[13] == 'v';
    assert TicketsUrlMessage[0] == 'P' && TicketsUrlMessage[13] == 'a';
  }

  /** The seven-part concatenation `SchemaIssues` writes out is `IssuesOf` the messages. */
  lemma SevenIssues(ms: seq<string>, fs: seq<bool>)
    requires |ms| == 7 && |fs| == 7
    ensures IssuesOf(ms, fs) ==
      IssueIf(fs[0], ms[0]) +
      IssueIf(fs[1], ms[1]) +
      IssueIf(fs[2], ms[2]) +
      IssueIf(fs[3], ms[3]) +
      IssueIf(fs[4], ms[4]) +
      IssueIf(fs[5], ms[5]) +
      IssueIf(fs[6], ms[6])
  {
    assert IssuesOf(ms[..0], fs[..0]) == [];
    assert ms[..1][..0] == ms[..0] && fs[..1][..0] == fs[..0];
    assert IssuesOf(ms[..1], fs[..1]) == IssuesOf(ms[..0], fs[..0]) + IssueIf(fs[0], ms[0]);
    assert IssuesOf(ms[..1], fs[..1]) == IssueIf(fs[0], ms[0]);
    assert ms[..2][..1] == ms[..1] && fs[..2][..1] == fs[..1];
    assert IssuesOf(ms[..2], fs[..2]) == IssuesOf(ms[..1], fs[..1]) + IssueIf(fs[1], ms[1]);
    assert ms[..3][..2] == ms[..2] && fs[..3][..2] == fs[..2];
    assert IssuesOf(ms[..3], fs[..3]) == IssuesOf(ms[..2], fs[..2]) + IssueIf(fs[2], ms[2]);
    assert ms[..4][..3] == ms[..3] && fs[..4][..3] == fs[..3];
    assert IssuesOf(ms[..4], fs[..4]) == IssuesOf(ms[..3], fs[..3]) + IssueIf(fs[3], ms[3]);
    assert ms[..5][..4] == ms[..4] && fs[..5][..4] == fs[..4];
    assert IssuesOf(ms[..5], fs[..5]) == IssuesOf(ms[..4], fs[..4]) + IssueIf(fs[4], ms[4]);
    assert ms[..6][..5] == ms[..5] && fs[..6][..5] == fs[..5];
    assert IssuesOf(ms[..6], fs[..6]) == IssuesOf(ms[..5], fs[..5]) + IssueIf(fs[5], ms[5]);
    assert ms[..7][..6] == ms[..6] && fs[..7][..6] == fs[..6];
    assert IssuesOf(ms[..7], fs[..7]) == IssuesOf(ms[..6], fs[..6]) + IssueIf(fs[6], ms[6]);
    assert ms[..7] == ms && fs[..7] == fs;
  }

  /** The issues are the failing fields' messages in declaration order. */
  lemma SchemaIssuesInOrder(v: GigFormValues, validUrl: string -> bool)
    ensures SchemaIssues(v, validUrl) == IssuesOf(Messages, Failures(v, validUrl))
  {
    SevenIssues(Messages, Failures(v, validUrl));
  }

  /** Each failing field adds its own message and no other field adds it; the title's
      message, when present, comes first and the tickets URL's, when present, last. */
  lemma SchemaIssueMessages(v: GigFormValues, validUrl: string -> bool)
    ensures var issues := SchemaIssues(v, validUrl);
      (TitleMessage in issues <==> |v.title| < 2) &&
      (DateMessage in issues <==> !IsYmdShape(v.date)) &&
      (EndDateMessage in issues <==> !EndDateAccepted(v.endDate)) &&
      (CityMessage in issues <==> |v.city| < 1) &&
      (CountryMessage in issues <==> |v.country| < 1) &&
      (VenueMessage in issues <==> |v.venue| < 2) &&
      (TicketsUrlMessage in issues <==> !validUrl(v.ticketsUrl))
    ensures var issues := SchemaIssues(v, validUrl);
      (|v.title| < 2 ==> issues[0] == TitleMessage) &&
      (!validUrl(v.ticketsUrl) ==> issues[|issues| - 1] == TicketsUrlMessage)
  {
    var fs := Failures(v, validUrl);
    SchemaIssuesInOrder(v, validUrl);
    MessagesDistinct();
    IssuesOfMembers(Messages, fs, 0);
    IssuesOfMembers(Messages, fs, 1);
    IssuesOfMembers(Messages, fs, 2);
    IssuesOfMembers(Messages, fs, 3);
    IssuesOfMembers(Messages, fs, 4);
    IssuesOfMembers(Messages, fs, 5);
    IssuesOfMembers(Messages, fs, 6);
  }

  /** A blank end date is accepted and parsed as absent; a present one keeps its text. */
  lemma BlankEndDateAbsent(endDate: string)
    ensures IsBlank(endDate) ==> EndDateAccepted(endDate) && ParsedEndDate(endDate) == None
    ensures !IsBlank(endDate) ==>
      (EndDateAccepted(endDate) <==> IsYmdShape(endDate)) && ParsedEndDate(endDate) == Some(endDate)
  {
  }

  /** The defaults are Barcelona, ES and empty fields, and fail on title, date and venue
      whatever the URL check says. */
  lemma DefaultsRejected(validUrl: string -> bool)
    ensures Defaults.city == "Barcelona" && Defaults.country == "ES"
    ensures Defaults.title == "" && Defaults.date == "" && Defaults.endDate == "" &&
      Defaults.venue == "" && Defaults.ticketsUrl == ""
    ensures var issues := SchemaIssues(Defaults, validUrl);
      issues[..3] == [TitleMessage, DateMessage, VenueMessage]
  {
    assert !IsYmdShape("");
    assert IsBlank("");
  }

  /** Absent, empty and white-space-only input give nothing. */
  lemma DateToYmdBlank(env: DateEnv, date: Option<string>)
    requires date.None? || IsBlank(date.value)
    ensures DateToYmd(env, date).None?
  {
  }

  /** A 'T' wins over every other rule: the first ten characters of the trimmed input. */
  lemma DateToYmdWithTime(env: DateEnv, raw: string)
    requires HasTimePart(Trim(raw))
    ensures DateToYmd(env, Some(raw)) == Some(Slice10(Trim(raw)))
  {
  }

  /** A date-shaped input (after trimming) is returned trimmed and otherwise unchanged. */
  lemma DateToYmdOfYmd(env: DateEnv, raw: string)
    requires IsYmdShape(Trim(raw))
    ensures DateToYmd(env, Some(raw)) == Some(Trim(raw))
  {
    var s := Trim(raw);
    assert 'T' !in s by {
      forall k | 0 <= k < |s| ensures s[k] != 'T' {
        assert k == 4 || k == 7 || IsDigit(s[k]);
      }
    }
  }

  /** Input no rule accepts and `Date` cannot parse gives nothing. */
  lemma DateToYmdUnparsable(env: DateEnv, raw: string)
    requires !IsBlank(raw) && !HasTimePart(Trim(raw)) && !IsYmdShape(Trim(raw))
    requires env.parse(Trim(raw)).None?
    ensures DateToYmd(env, Some(raw)).None?
  {
  }

  /** A result is never an empty string unless the environment's ISO day is, so `!ymd`
      fails exactly on absent results for the first two rules. */
  lemma DateToYmdNonEmpty(env: DateEnv, raw: string)
    requires DateToYmd(env, Some(raw)).Some?
    requires HasTimePart(Trim(raw)) || IsYmdShape(Trim(raw))
    ensures DateToYmd(env, Some(raw)).value != ""
  {
  }
}
