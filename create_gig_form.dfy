/** `src/app/gig-form/CreateGigFormClient.tsx`: the form that suggests a new gig. A
    Telegram start param that looks like a gig's public id sends the page to that gig's
    edit form; "lookup" fills the fields from the AI lookup; "submit" sends the gig and
    resets the form for the next one, keeping the location. Each `await` splits a handler
    into a `Begin…` method, which runs up to the request, and a `Complete…` method, which
    receives the request's outcome. */
module CreateGigForm {
  import opened Common
  import opened Text
  import opened Json
  import opened Dates
  import opened Uri
  import opened Api
  import opened GigFormShared
  import opened GigFormApi
  import opened Telegram

  // ---------------------------------------------------------------- the start-param redirect

  predicate IsTokenChar(c: char) {
    ('a' <= c <= 'z') || ('A' <= c <= 'Z') || ('0' <= c <= '9') || c == '-'
  }

  /** `/^[a-z0-9-]{1,64}$/i`, the backend's public-id format. */
  predicate IsToken(s: string) {
    1 <= |s| <= 64 && forall i :: 0 <= i < |s| ==> IsTokenChar(s[i])
  }

  /** The effect on mount: the trimmed start param, when it is a token, names the gig
      whose edit form replaces this page. */
  function StartRedirect(w: Window): Option<string> {
    var token := Trim(StartParam(w));
    if token == "" || !IsToken(token) then None
    else Some("/gig-form/" + EncodeComponent(token) + "/edit")
  }

  /** The page moves exactly when the trimmed start param is 1 to 64 letters, digits or
      hyphens; the token needs no escaping, and the edit page decodes it back. */
  lemma RedirectRule(w: Window)
    ensures StartRedirect(w).Some? <==> IsToken(Trim(StartParam(w)))
    ensures StartRedirect(w).Some? ==>
      StartRedirect(w).value == "/gig-form/" + Trim(StartParam(w)) + "/edit" &&
      DecodeComponent(Trim(StartParam(w))) == Some(Trim(StartParam(w)))
  {
    var token := Trim(StartParam(w));
    if IsToken(token) {
      EncodeUnescaped(token);
      DecodeEncode(token);
    }
  }

  // ---------------------------------------------------------------- notifications

  /** A `toast`: its title, its description, and whether it is the destructive kind. */
  datatype Toast = Toast(title: string, description: string, destructive: bool)

  const LookupFailedToast := Toast("Error", "Failed to start AI lookup.", true)
  const LookupFilledToast := Toast("Filled from AI", "Fields were updated from lookup results.", false)
  const InvalidPosterToast := Toast("Invalid poster URL", "Please paste a valid image URL.", true)
  const SentToast := Toast("Sent!", "Thanks \U{2014} we\U{2019}ll review it and (hopefully) announce it soon.", false)

  function SubmitFailedToast(message: string): Toast {
    Toast("Couldn\U{2019}t submit", message, true)
  }

  // ---------------------------------------------------------------- lookup

  const TitleRequiredMessage := "Lookup requires \"title\""
  const LocationRequiredMessage := "Lookup requires \"city\" and \"country\""
  const NoDateMessage := "AI lookup did not return a date"
  const BadDateMessage := "Invalid API response: \"gig.date\" must be YYYY-MM-DD (or ISO)"
  const BadEndDateMessage := "Invalid API response: \"gig.endDate\" must be YYYY-MM-DD (or ISO)"

  /** `[city, country].filter(Boolean).join(', ')` */
  function Location(city: string, country: string): (r: string)
    ensures r == "" <==> city == "" && country == ""
    ensures city != "" && country != "" ==> r == city + ", " + country
    ensures city == "" || country == "" ==> r == city + country
  {
    if city != "" && country != "" then city + ", " + country
    else if city != "" then city
    else country
  }

  /** What the lookup asks for: the trimmed title, and the trimmed city and country. */
  datatype LookupQuery = LookupQuery(name: string, location: string)

  /** The checks before the request: a title, then a city or a country. */
  function LookupQueryOf(v: GigFormValues): (r: Result<LookupQuery>)
    ensures r.Err? <==> IsBlank(v.title) || (IsBlank(v.city) && IsBlank(v.country))
    ensures IsBlank(v.title) ==> r == Err(TitleRequiredMessage)
    ensures !IsBlank(v.title) && IsBlank(v.city) && IsBlank(v.country) ==> r == Err(LocationRequiredMessage)
    ensures r.Ok? ==> (r.value.name == Trim(v.title) && r.value.name != "" &&
      r.value.location == Location(Trim(v.city), Trim(v.country)) && r.value.location != "")
  {
    var name := Trim(v.title);
    var location := Location(Trim(v.city), Trim(v.country));
    if name == "" then Err(TitleRequiredMessage)
    else if location == "" then Err(LocationRequiredMessage)
    else Ok(LookupQuery(name, location))
  }

  /** A lookup field that is there: a truthy string. */
  predicate Present(s: Option<string>) { s.Some? && s.value != "" }

  /** The lookup's dates in the form's format: the start date must be there and must
      normalise; an end date that is there must normalise too. */
  function LookupDates(env: DateEnv, data: GigLookupData): (r: Result<(string, Option<string>)>)
    ensures r.Err? <==> (!Present(data.date) || DateToYmd(env, data.date).None? ||
      (Present(data.endDate) && DateToYmd(env, data.endDate).None?))
    ensures !Present(data.date) ==> r == Err(NoDateMessage)
    ensures Present(data.date) && DateToYmd(env, data.date).None? ==> r == Err(BadDateMessage)
    ensures r.Ok? ==> (r.value.0 == DateToYmd(env, data.date).value &&
      (r.value.1.Some? <==> Present(data.endDate)) &&
      (r.value.1.Some? ==> r.value.1 == DateToYmd(env, data.endDate)))
  {
    if !Present(data.date) then Err(NoDateMessage)
    else
      var ymd := DateToYmd(env, data.date);
      if ymd.None? then Err(BadDateMessage)
      else
        var ymd2 := if Present(data.endDate) then DateToYmd(env, data.endDate) else None;
        if Present(data.endDate) && ymd2.None? then Err(BadEndDateMessage)
        else Ok((ymd.value, ymd2))
  }

  /** `if (data.x) form.setValue('x', …)` */
  function Overwrite(current: string, v: Option<string>): string {
    if Present(v) then v.value else current
  }

  /** The form after a lookup's writes: the date always, the end date when the result
      has one, the country upper-cased, and every other field only when present. */
  function LookupMerge(v: GigFormValues, data: GigLookupData, ymd: string, ymd2: Option<string>): GigFormValues {
    GigFormValues(
      Overwrite(v.title, data.title),
      ymd,
      if Present(data.endDate) then ymd2.GetOr("") else v.endDate,
      Overwrite(v.city, data.city),
      if Present(data.country) then Upper(data.country.value) else v.country,
      Overwrite(v.venue, data.venue),
      Overwrite(v.ticketsUrl, data.ticketsUrl))
  }

  /** A field the result does not carry keeps what the user typed. */
  lemma MergeKeepsAbsent(v: GigFormValues, data: GigLookupData, ymd: string, ymd2: Option<string>)
    ensures var r := LookupMerge(v, data, ymd, ymd2);
      r.date == ymd &&
      (!Present(data.title) ==> r.title == v.title) &&
      (!Present(data.endDate) ==> r.endDate == v.endDate) &&
      (!Present(data.city) ==> r.city == v.city) &&
      (!Present(data.country) ==> r.country == v.country) &&
      (!Present(data.venue) ==> r.venue == v.venue) &&
      (!Present(data.ticketsUrl) ==> r.ticketsUrl == v.ticketsUrl)
  {
  }

  /** Applying the same result twice is applying it once. */
  lemma MergeIdempotent(v: GigFormValues, data: GigLookupData, ymd: string, ymd2: Option<string>)
    ensures LookupMerge(LookupMerge(v, data, ymd, ymd2), data, ymd, ymd2) == LookupMerge(v, data, ymd, ymd2)
  {
  }

  /** The merged country is in upper case whenever the result carried one. */
  lemma MergedCountryUpper(v: GigFormValues, data: GigLookupData, ymd: string, ymd2: Option<string>)
    requires Present(data.country)
    ensures var c := LookupMerge(v, data, ymd, ymd2).country;
      |c| == |data.country.value| && forall i :: 0 <= i < |c| ==> !('a' <= c[i] <= 'z')
  {
  }

  // ---------------------------------------------------------------- submit

  /** The gig `onSubmit` builds from the values the schema accepted: `endDate || undefined`. */
  function GigPayloadOf(v: GigFormValues): (g: GigPayload)
    ensures g.endDate.None? <==> IsBlank(v.endDate)
    ensures g.endDate.Some? ==> g.endDate.value == v.endDate
    ensures g.title == v.title && g.date == v.date && g.city == v.city && g.country == v.country &&
      g.venue == v.venue && g.ticketsUrl == v.ticketsUrl
  {
    var endDate := ParsedEndDate(v.endDate);
    GigPayload(v.title, v.date, if endDate.Some? && endDate.value != "" then endDate else None,
      v.city, v.country, v.venue, v.ticketsUrl)
  }

  /** The form's own check: a poster URL to send that `new URL` refuses. */
  predicate PosterBlocked(poster: PosterSelection, validUrl: string -> bool) {
    poster.mode == Url && Trim(poster.url) != "" && !validUrl(Trim(poster.url))
  }

  /** The form's check refuses exactly what `getPosterUrlOrUndefined` would throw on, so
      a request that passes it never fails on its poster URL. */
  lemma PosterCheckAgrees(poster: PosterSelection, validUrl: string -> bool)
    ensures PosterBlocked(poster, validUrl) <==> PosterUrlOrUndefined(poster, validUrl).Err?
  {
  }

  /** The values after a successful submit: the defaults, with the current location. */
  function ResetKeepingLocation(v: GigFormValues): GigFormValues {
    Defaults.(city := v.city, country := v.country)
  }

  /** The reset clears everything but the location, which it keeps; resetting again
      changes nothing; and the reset form is not submittable until it is filled in. */
  lemma ResetProperties(v: GigFormValues, validUrl: string -> bool)
    ensures var r := ResetKeepingLocation(v);
      r.city == v.city && r.country == v.country &&
      r.title == "" && r.date == "" && r.endDate == "" && r.venue == "" && r.ticketsUrl == ""
    ensures ResetKeepingLocation(ResetKeepingLocation(v)) == ResetKeepingLocation(v)
    ensures SchemaIssues(ResetKeepingLocation(v), validUrl) != []
  {
  }

  // ---------------------------------------------------------------- the form

  class CreateGigForm {
    var values: GigFormValues
    var isSubmitting: bool
    var isLookingUp: bool
    var poster: PosterSelection
    /** The toasts shown so far, oldest first. */
    var toasts: seq<Toast>

    constructor ()
      ensures values == Defaults && !isSubmitting && !isLookingUp
      ensures poster == PosterSelection(Upload, None, "") && toasts == []
    {
      values := Defaults;
      isSubmitting := false;
      isLookingUp := false;
      poster := PosterSelection(Upload, None, "");
      toasts := [];
    }

    /** `onLookup` up to `lookupGig`: ignored while a lookup runs; otherwise the flag is
        set, and a missing title or location fails at once, changing no field. */
    method BeginLookup() returns (query: Option<LookupQuery>)
      modifies this
      ensures old(isLookingUp) ==> query.None? && unchanged(this)
      ensures values == old(values) && poster == old(poster) && isSubmitting == old(isSubmitting)
      ensures var q := LookupQueryOf(old(values));
        !old(isLookingUp) ==>
          (q.Ok? ==> query == Some(q.value) && isLookingUp && toasts == old(toasts)) &&
          (q.Err? ==> query.None? && !isLookingUp && toasts == old(toasts) + [LookupFailedToast])
    {
      if isLookingUp {
        return None;
      }
      var q := LookupQueryOf(values);
      isLookingUp := true;
      if q.Err? {
        toasts := toasts + [LookupFailedToast];
        isLookingUp := false;
        return None;
      }
      query := Some(q.value);
    }

    /** `onLookup` after `lookupGig` resolved to `result`: a failed request or a bad date
        changes no field; otherwise the fields are written one by one. */
    method CompleteLookup(env: DateEnv, result: Result<GigLookupData>)
      modifies this
      ensures !isLookingUp && poster == old(poster) && isSubmitting == old(isSubmitting)
      ensures result.Err? || LookupDates(env, result.value).Err? ==>
        values == old(values) && toasts == old(toasts) + [LookupFailedToast]
      ensures result.Ok? && LookupDates(env, result.value).Ok? ==>
        var dates := LookupDates(env, result.value).value;
        values == LookupMerge(old(values), result.value, dates.0, dates.1) &&
        toasts == old(toasts) + [LookupFilledToast]
    {
      if result.Err? {
        toasts := toasts + [LookupFailedToast];
        isLookingUp := false;
        return;
      }
      var data := result.value;
      var dates := LookupDates(env, data);
      if dates.Err? {
        toasts := toasts + [LookupFailedToast];
        isLookingUp := false;
        return;
      }
      var (ymd, ymd2) := dates.value;
      // each `setValue` touches one field; the others keep what the form held
      var title, endDate, city, country, venue, ticketsUrl :=
        values.title, values.endDate, values.city, values.country, values.venue, values.ticketsUrl;
      if Present(data.title) { title := data.title.value; }
      if Present(data.endDate) { endDate := ymd2.GetOr(""); }
      if Present(data.city) { city := data.city.value; }
      if Present(data.country) { country := Upper(data.country.value); }
      if Present(data.venue) { venue := data.venue.value; }
      if Present(data.ticketsUrl) { ticketsUrl := data.ticketsUrl.value; }
      values := GigFormValues(title, ymd, endDate, city, country, venue, ticketsUrl);
      toasts := toasts + [LookupFilledToast];
      isLookingUp := false;
    }

    /** `onSubmit` with the values `v` the schema accepted, up to `createGig`: the init
        data is awaited first, then the poster URL is checked; the request is the gig
        with its poster, sent to the create endpoint. */
    method BeginSubmit(v: GigFormValues, wait: WaitResult, validUrl: string -> bool) returns (call: Option<ApiCall>)
      requires SchemaIssues(values, validUrl) == [] && v == SchemaOutput(values)
      modifies this
      ensures values == old(values) && poster == old(poster) && isLookingUp == old(isLookingUp)
      ensures call.Some? <==> wait.Ready? && !PosterBlocked(poster, validUrl)
      ensures call.Some? ==> (isSubmitting && toasts == old(toasts) &&
        call.value == ApiCall(CreateEndpoint, POST,
          SubmitData(wait.initData, GigPayloadOf(v), poster, PosterUrlOrUndefined(poster, validUrl).value)))
      ensures !wait.Ready? ==> !isSubmitting && toasts == old(toasts) + [SubmitFailedToast(WaitFailure(wait))]
      ensures wait.Ready? && PosterBlocked(poster, validUrl) ==>
        !isSubmitting && toasts == old(toasts) + [InvalidPosterToast]
    {
      isSubmitting := true;
      if !wait.Ready? {
        toasts := toasts + [SubmitFailedToast(WaitFailure(wait))];
        isSubmitting := false;
        return None;
      }
      var gig := GigPayloadOf(v);
      if poster.mode == Url && Trim(poster.url) != "" && !validUrl(Trim(poster.url)) {
        toasts := toasts + [InvalidPosterToast];
        isSubmitting := false;
        return None;
      }
      PosterCheckAgrees(poster, validUrl);
      var submitted := SubmitGig(CreateEndpoint, POST, wait.initData, gig, poster, validUrl);
      call := Some(submitted.value);
    }

    /** `onSubmit` after `createGig` settled: success resets the form, keeping the
        location, and clears the poster; failure shows the error and keeps everything. */
    method CompleteSubmit(outcome: Result<JsValue>)
      modifies this
      ensures !isSubmitting && isLookingUp == old(isLookingUp)
      ensures outcome.Ok? ==> (values == ResetKeepingLocation(old(values)) &&
        poster == old(poster).(file := None, url := "") && toasts == old(toasts) + [SentToast])
      ensures outcome.Err? ==> (values == old(values) && poster == old(poster) &&
        toasts == old(toasts) + [SubmitFailedToast(outcome.message)])
    {
      if outcome.Err? {
        toasts := toasts + [SubmitFailedToast(outcome.message)];
        isSubmitting := false;
        return;
      }
      toasts := toasts + [SentToast];
      values := ResetKeepingLocation(values);
      poster := poster.(url := "");
      poster := poster.(file := None);
      isSubmitting := false;
    }
  }
}
