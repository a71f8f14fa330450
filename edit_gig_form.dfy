/** `src/app/gig-form/EditGigFormClient.tsx`: the form that edits an existing gig. On
    mount (and on every retry) an effect loads the gig and prefills the form; each load
    carries a sequence number, and only the latest may touch the loading, error and
    prefilled flags. "Lookup" overwrites every field from the AI lookup; "save" sends the
    gig to the update endpoint and goes back. As in the create form, each `await` splits
    a handler into a `Begin…` and a `Complete…` method; the outcome of the awaited call
    is a parameter of the second. */
module EditGigForm {
  import opened Common
  import opened Text
  import opened Json
  import opened Dates
  import opened Api
  import opened GigFormShared
  import opened GigFormApi
  import opened Telegram
  import opened CreateGigForm

  function LoadFailedToast(message: string): Toast {
    Toast("Couldn\U{2019}t load gig", message, true)
  }

  const UpdatedToast := Toast("Updated!", "Gig was updated.", false)

  // ---------------------------------------------------------------- the prefill

  /** The fetched date and end date in the form's format: the date must normalise, and
      so must an end date that is there. */
  function LoadDates(env: DateEnv, draft: GigDraftData): (r: Result<(string, Option<string>)>)
    ensures r.Err? <==> (DateToYmd(env, Some(draft.date)).None? ||
      (draft.endDate.Some? && draft.endDate.value != "" && DateToYmd(env, draft.endDate).None?))
    ensures DateToYmd(env, Some(draft.date)).None? ==> r == Err(BadDateMessage)
    ensures r.Err? && DateToYmd(env, Some(draft.date)).Some? ==> r == Err(BadEndDateMessage)
    ensures r.Ok? ==> (Some(r.value.0) == DateToYmd(env, Some(draft.date)) &&
      (r.value.1.Some? <==> draft.endDate.Some? && draft.endDate.value != "") &&
      (r.value.1.Some? ==> r.value.1 == DateToYmd(env, draft.endDate)))
  {
    var ymd := DateToYmd(env, Some(draft.date));
    if ymd.None? then Err(BadDateMessage)
    else
      var hasEnd := draft.endDate.Some? && draft.endDate.value != "";
      var ymd2 := if hasEnd then DateToYmd(env, draft.endDate) else None;
      if hasEnd && ymd2.None? then Err(BadEndDateMessage)
      else Ok((ymd.value, ymd2))
  }

  /** `form.reset({...defaultGigFormValues, …})` with the fetched gig. */
  function Prefill(draft: GigDraftData, ymd: string, ymd2: Option<string>): GigFormValues {
    Defaults.(title := draft.title, date := ymd, endDate := ymd2.GetOr(""), city := draft.city,
              country := Upper(draft.country), venue := draft.venue, ticketsUrl := draft.ticketsUrl)
  }

  /** What a load that was not aborted ends in: the prefilled values and the existing
      poster URL, or the message of the first failure (waiting for the init data, the
      fetch, or the dates, in that order). */
  function LoadOutcome(env: DateEnv, wait: WaitResult, fetched: Result<GigForEditData>): Result<(GigFormValues, string)> {
    if !wait.Ready? then Err(WaitFailure(wait))
    else if fetched.Err? then Err(fetched.message)
    else
      var draft := fetched.value.draft;
      match LoadDates(env, draft)
      case Err(m) => Err(m)
      case Ok((ymd, ymd2)) => Ok((Prefill(draft, ymd, ymd2), draft.posterUrl.GetOr("")))
  }

  /** A load fails exactly when the wait or the fetch failed or a date does not
      normalise, with that failure's message; otherwise every field comes from the
      fetched gig, the country upper-cased, the end date empty when there is none, and
      the existing poster is the fetched one or empty. */
  lemma LoadRules(env: DateEnv, wait: WaitResult, fetched: Result<GigForEditData>)
    ensures var r := LoadOutcome(env, wait, fetched);
      (r.Err? <==> !wait.Ready? || fetched.Err? || LoadDates(env, fetched.value.draft).Err?) &&
      (!wait.Ready? ==> r == Err(WaitFailure(wait))) &&
      (wait.Ready? && fetched.Err? ==> r == Err(fetched.message)) &&
      (wait.Ready? && fetched.Ok? && LoadDates(env, fetched.value.draft).Err? ==>
        r == Err(LoadDates(env, fetched.value.draft).message))
    ensures var r := LoadOutcome(env, wait, fetched);
      r.Ok? ==> var d := fetched.value.draft; var v := r.value.0;
        Some(v.date) == DateToYmd(env, Some(d.date)) &&
        (d.endDate.None? || d.endDate.value == "" ==> v.endDate == "") &&
        (d.endDate.Some? && d.endDate.value != "" ==> Some(v.endDate) == DateToYmd(env, d.endDate)) &&
        v.title == d.title && v.city == d.city && v.venue == d.venue && v.ticketsUrl == d.ticketsUrl &&
        |v.country| == |d.country| && (forall i :: 0 <= i < |d.country| ==> v.country[i] == UpperChar(d.country[i])) &&
        r.value.1 == d.posterUrl.GetOr("")
  {
  }

  // ---------------------------------------------------------------- the lookup's writes

  /** The seven `setValue` calls, in order. A field missing from the result is written
      as `undefined`, which the model writes as the empty string the input shows. A
      missing country throws in `toUpperCase`, after the first four writes. */
  function LookupWrites(v: GigFormValues, data: GigLookupData, ymd: string, ymd2: Option<string>): GigFormValues {
    var w := v.(title := data.title.GetOr(""), date := ymd, endDate := ymd2.GetOr(""), city := data.city.GetOr(""));
    if data.country.None? then w
    else w.(country := Upper(data.country.value), venue := data.venue.GetOr(""), ticketsUrl := data.ticketsUrl.GetOr(""))
  }

  /** With a country in the result, every field is overwritten: what the user had typed
      makes no difference. */
  lemma LookupOverwritesAll(v1: GigFormValues, v2: GigFormValues, data: GigLookupData, ymd: string, ymd2: Option<string>)
    requires data.country.Some?
    ensures LookupWrites(v1, data, ymd, ymd2) == LookupWrites(v2, data, ymd, ymd2)
    ensures var r := LookupWrites(v1, data, ymd, ymd2);
      r.title == data.title.GetOr("") && r.date == ymd && r.endDate == ymd2.GetOr("") &&
      r.city == data.city.GetOr("") && r.venue == data.venue.GetOr("") &&
      r.ticketsUrl == data.ticketsUrl.GetOr("") && |r.country| == |data.country.value|
  {
  }

  /** Without a country, the title, the dates and the city are already written when the
      upper-casing throws; the country, the venue and the tickets URL keep their values. */
  lemma LookupStopsAtCountry(v: GigFormValues, data: GigLookupData, ymd: string, ymd2: Option<string>)
    requires data.country.None?
    ensures var r := LookupWrites(v, data, ymd, ymd2);
      r.title == data.title.GetOr("") && r.date == ymd && r.endDate == ymd2.GetOr("") &&
      r.city == data.city.GetOr("") &&
      r.country == v.country && r.venue == v.venue && r.ticketsUrl == v.ticketsUrl
  {
  }

  /** When the result carries every field, the edit form ends where the create form's
      merge does; without an end date the edit form clears the end date, which the create
      form keeps. */
  lemma LookupAgainstCreate(v: GigFormValues, data: GigLookupData, ymd: string, ymd2: Option<string>)
    requires Present(data.title) && Present(data.city) && Present(data.country)
    requires Present(data.venue) && Present(data.ticketsUrl)
    ensures Present(data.endDate) ==> LookupWrites(v, data, ymd, ymd2) == LookupMerge(v, data, ymd, ymd2)
    ensures !Present(data.endDate) && ymd2.None? ==>
      LookupWrites(v, data, ymd, ymd2) == LookupMerge(v, data, ymd, ymd2).(endDate := "")
  {
  }

  // ---------------------------------------------------------------- the loading card

  const LoadingText := "Loading\U{2026}"

  /** The card's description before the form is shown: `loadGigError ? \`Error: …\` :
      'Loading…'`, a truthiness test, so an empty message reads as no error. */
  function CardStatus(loadGigError: Option<string>): string {
    if loadGigError.Some? && loadGigError.value != "" then "Error: " + loadGigError.value else LoadingText
  }

  /** The Retry button is rendered on the card, under the same truthiness test. */
  predicate RetryOffered(isPrefilled: bool, loadGigError: Option<string>) {
    !isPrefilled && loadGigError.Some? && loadGigError.value != ""
  }

  /** As written, a latest load that fails with the empty message (a non-ok response with
      an empty text body) leaves the card saying "Loading…" with no Retry button, although
      nothing is loading any more; with any other message the card shows it and offers
      Retry. */
  lemma EmptyErrorStuck(message: string)
    ensures CardStatus(Some(message)) == LoadingText <==> message == ""
    ensures RetryOffered(false, Some(message)) <==> message != ""
  {
    if message != "" {
      assert CardStatus(Some(message))[0] == 'E' && LoadingText[0] == 'L';
    }
  }

  /** The evident intent: the card reports every recorded error, the empty one
      included, and offers Retry for it. */
  function CardStatusIntended(loadGigError: Option<string>): string {
    if loadGigError.Some? then "Error: " + loadGigError.value else LoadingText
  }

  predicate RetryOfferedIntended(isPrefilled: bool, loadGigError: Option<string>) {
    !isPrefilled && loadGigError.Some?
  }

  /** With the intended tests a failed load is never shown as loading: the card shows
      "Loading…" exactly when no error is recorded, and Retry is offered for every error
      of a form that is not prefilled. The two versions differ only on the empty
      message. */
  lemma IntendedStatusShowsEveryError(loadGigError: Option<string>, isPrefilled: bool)
    ensures CardStatusIntended(loadGigError) == LoadingText <==> loadGigError.None?
    ensures RetryOfferedIntended(isPrefilled, loadGigError) <==> !isPrefilled && loadGigError.Some?
    ensures CardStatusIntended(loadGigError) == CardStatus(loadGigError) <==>
      loadGigError.None? || loadGigError.value != ""
  {
    if loadGigError.Some? {
      assert CardStatusIntended(loadGigError)[0] == 'E' && LoadingText[0] == 'L';
    }
  }

  // ---------------------------------------------------------------- the form

  class EditGigForm {
    /** The route's public id. */
    const gigPublicId: string
    var values: GigFormValues
    var isSubmitting: bool
    var isLookingUp: bool
    var isLoadingGig: bool
    var loadGigError: Option<string>
    var isPrefilled: bool
    var reloadKey: nat
    var poster: PosterSelection
    var existingPosterUrl: string
    /** `loadedGigRef`: the id whose data filled the form. */
    var loadedGig: Option<string>
    /** `requestSeqRef`: the number of the latest load, 0 before the first. */
    var requestSeq: nat
    /** `abortRef`: the load whose controller is the current one. */
    var currentLoad: Option<nat>
    /** The loads the effect's cleanup of the last run aborts. */
    var cleanupLoad: Option<nat>
    /** The loads whose signal is aborted. */
    var aborted: set<nat>
    /** The loads started whose continuation has not run yet. */
    var pending: set<nat>
    /** The toasts shown so far, oldest first. */
    var toasts: seq<Toast>
    /** Whether `router.back()` was called. */
    var navigatedBack: bool

    /** The form shows a gig only once it holds the route's gig; a load that is still
        running and is not the latest has been aborted; the current controller is the
        latest load's. The lookup and submit handlers modify none of the fields it
        reads, so they keep it. */
    ghost predicate Valid()
      reads this`isPrefilled, this`loadedGig, this`currentLoad, this`requestSeq
      reads this`pending, this`cleanupLoad, this`aborted
    {
      (isPrefilled ==> loadedGig == Some(gigPublicId)) &&
      (loadedGig.Some? ==> loadedGig.value == gigPublicId) &&
      (currentLoad.Some? ==> currentLoad.value == requestSeq && requestSeq in pending) &&
      (requestSeq in pending ==> currentLoad == Some(requestSeq)) &&
      (cleanupLoad.Some? ==> 1 <= cleanupLoad.value <= requestSeq) &&
      (forall s :: s in pending ==> 1 <= s <= requestSeq && (s != requestSeq ==> s in aborted))
    }

    constructor (id: string)
      ensures Valid() && gigPublicId == id
      ensures values == Defaults && !isSubmitting && !isLookingUp && !isLoadingGig
      ensures loadGigError.None? && !isPrefilled && reloadKey == 0
      ensures poster == PosterSelection(Upload, None, "") && existingPosterUrl == ""
      ensures loadedGig.None? && requestSeq == 0 && currentLoad.None? && cleanupLoad.None?
      ensures aborted == {} && pending == {} && toasts == [] && !navigatedBack
    {
      gigPublicId := id;
      values := Defaults;
      isSubmitting := false;
      isLookingUp := false;
      isLoadingGig := false;
      loadGigError := None;
      isPrefilled := false;
      reloadKey := 0;
      poster := PosterSelection(Upload, None, "");
      existingPosterUrl := "";
      loadedGig := None;
      requestSeq := 0;
      currentLoad := None;
      cleanupLoad := None;
      aborted := {};
      pending := {};
      toasts := [];
      navigatedBack := false;
    }

    /** The effect's body. Without an id, or with the id already loaded, nothing happens.
        Otherwise the previous controller is aborted, the load gets the next number, and
        its first synchronous step, being the latest, sets the loading flag and clears
        the error. */
    method Effect() returns (load: Option<nat>)
      requires Valid()
      modifies this`isPrefilled, this`aborted, this`requestSeq, this`currentLoad, this`cleanupLoad
      modifies this`pending, this`isLoadingGig, this`loadGigError
      ensures Valid()
      ensures gigPublicId == "" || old(loadedGig) == Some(gigPublicId) ==> (load.None? &&
        isPrefilled == old(isPrefilled) && aborted == old(aborted) && requestSeq == old(requestSeq) &&
        currentLoad == old(currentLoad) && cleanupLoad == old(cleanupLoad) && pending == old(pending) &&
        isLoadingGig == old(isLoadingGig) && loadGigError == old(loadGigError))
      ensures gigPublicId != "" && old(loadedGig) != Some(gigPublicId) ==> (
        load == Some(requestSeq) && requestSeq == old(requestSeq) + 1 &&
        !isPrefilled && isLoadingGig && loadGigError.None? &&
        currentLoad == Some(requestSeq) && cleanupLoad == Some(requestSeq) &&
        aborted == old(aborted) + (if old(currentLoad).Some? then {old(currentLoad).value} else {}) &&
        pending == old(pending) + {requestSeq})
    {
      if gigPublicId == "" || loadedGig == Some(gigPublicId) {
        return None;
      }
      isPrefilled := false;
      if currentLoad.Some? {
        aborted := aborted + {currentLoad.value};
      }
      requestSeq := requestSeq + 1;
      var s := requestSeq;
      currentLoad := Some(s);
      cleanupLoad := Some(s);
      pending := pending + {s};
      if s == requestSeq {
        isLoadingGig := true;
        loadGigError := None;
      }
      load := Some(s);
    }

    /** The effect's cleanup, run before the effect runs again and on unmount: it aborts
        the load the last run started. The timeout that aborts a load after 15 seconds
        is `Abort`. */
    method Cleanup()
      requires Valid()
      modifies this`aborted, this`cleanupLoad
      ensures Valid() && cleanupLoad.None?
      ensures aborted == old(aborted) + (if old(cleanupLoad).Some? then {old(cleanupLoad).value} else {})
    {
      if cleanupLoad.Some? {
        aborted := aborted + {cleanupLoad.value};
      }
      cleanupLoad := None;
    }

    /** The 15-second timeout of load `s` aborts its controller. */
    method Abort(s: nat)
      requires Valid() && s in pending
      modifies this`aborted
      ensures Valid() && aborted == old(aborted) + {s}
    {
      aborted := aborted + {s};
    }

    /** The Retry button, rendered only under `RetryOffered`: the key changes, so the
        effect's cleanup and body run again. */
    method Retry()
      requires RetryOffered(isPrefilled, loadGigError)
      modifies this`reloadKey
      ensures reloadKey == old(reloadKey) + 1
    {
      reloadKey := reloadKey + 1;
    }

    /** The continuation of load `s` once its awaits settled. An aborted load changes
        nothing but its own bookkeeping. Otherwise a success fills the form and records the
        id as loaded, and a failure shows a toast; only the latest load sets the flags. A
        load that is not the latest has been aborted, so it never fills the form. */
    method CompleteLoad(s: nat, env: DateEnv, wait: WaitResult, fetched: Result<GigForEditData>)
      requires Valid() && s in pending
      requires wait.Aborted? ==> s in aborted
      modifies this`values, this`existingPosterUrl, this`loadedGig, this`isPrefilled, this`loadGigError
      modifies this`toasts, this`currentLoad, this`isLoadingGig, this`pending
      ensures Valid()
      ensures var r := LoadOutcome(env, wait, fetched);
        s == requestSeq && s !in aborted && r.Err? ==>
          !isLoadingGig && StatusText() == CardStatus(Some(r.message)) &&
          (RetryOffered(isPrefilled, loadGigError) <==> r.message != "")
      ensures var r := LoadOutcome(env, wait, fetched);
        s !in aborted && r.Ok? ==> (values == r.value.0 && existingPosterUrl == r.value.1 &&
          loadedGig == Some(gigPublicId) && isPrefilled == (s == requestSeq || old(isPrefilled)) &&
          loadGigError == old(loadGigError) && toasts == old(toasts))
      ensures var r := LoadOutcome(env, wait, fetched);
        s !in aborted && r.Err? ==> (values == old(values) && loadedGig == old(loadedGig) &&
          existingPosterUrl == old(existingPosterUrl) && toasts == old(toasts) + [LoadFailedToast(r.message)] &&
          (s == requestSeq ==> loadGigError == Some(r.message) && !isPrefilled))
      ensures s in aborted ==> (values == old(values) && toasts == old(toasts) &&
        loadGigError == old(loadGigError) && isPrefilled == old(isPrefilled) &&
        loadedGig == old(loadedGig) && existingPosterUrl == old(existingPosterUrl))
      ensures s != requestSeq ==> (isLoadingGig == old(isLoadingGig) &&
        loadGigError == old(loadGigError) && isPrefilled == old(isPrefilled) && values == old(values))
      ensures s == requestSeq ==> !isLoadingGig
      ensures pending == old(pending) - {s}
      ensures currentLoad == if old(currentLoad) == Some(s) then None else old(currentLoad)
    {
      var outcome := LoadOutcome(env, wait, fetched);
      ApplyOutcome(s, outcome);
      FinishLoad(s);
    }

    /** The `try` and `catch` of load `s` once the outcome of its awaits and date checks
        is known. */
    method ApplyOutcome(s: nat, outcome: Result<(GigFormValues, string)>)
      requires Valid()
      modifies this`values, this`existingPosterUrl, this`loadedGig, this`isPrefilled, this`loadGigError
      modifies this`toasts
      ensures Valid()
      ensures s !in aborted && outcome.Ok? ==> (values == outcome.value.0 &&
        existingPosterUrl == outcome.value.1 && loadedGig == Some(gigPublicId) &&
        isPrefilled == (s == requestSeq || old(isPrefilled)) &&
        loadGigError == old(loadGigError) && toasts == old(toasts))
      ensures s !in aborted && outcome.Err? ==> (values == old(values) && loadedGig == old(loadedGig) &&
        existingPosterUrl == old(existingPosterUrl) && toasts == old(toasts) + [LoadFailedToast(outcome.message)] &&
        (s == requestSeq ==> loadGigError == Some(outcome.message) && !isPrefilled))
      ensures s in aborted ==> (values == old(values) && toasts == old(toasts) &&
        loadGigError == old(loadGigError) && isPrefilled == old(isPrefilled) &&
        loadedGig == old(loadedGig) && existingPosterUrl == old(existingPosterUrl))
      ensures s != requestSeq ==> (loadGigError == old(loadGigError) && isPrefilled == old(isPrefilled))
    {
      if s in aborted {
        return;
      }
      if outcome.Ok? {
        values := outcome.value.0;
        existingPosterUrl := outcome.value.1;
        loadedGig := Some(gigPublicId);
        if s == requestSeq {
          isPrefilled := true;
        }
      } else {
        if s == requestSeq {
          loadGigError := Some(outcome.message);
          isPrefilled := false;
        }
        toasts := toasts + [LoadFailedToast(outcome.message)];
      }
    }

    /** The `finally` of load `s`: it drops its controller if that is still the current
        one, and the latest load clears the loading flag. */
    method FinishLoad(s: nat)
      requires Valid() && s in pending
      modifies this`currentLoad, this`isLoadingGig, this`pending
      ensures Valid()
      ensures pending == old(pending) - {s}
      ensures currentLoad == if old(currentLoad) == Some(s) then None else old(currentLoad)
      ensures isLoadingGig == (old(isLoadingGig) && s != requestSeq)
    {
      if currentLoad == Some(s) {
        currentLoad := None;
      }
      if s == requestSeq {
        isLoadingGig := false;
      }
      pending := pending - {s};
    }

    /** `onLookup` up to `lookupGig`, as in the create form. */
    method BeginLookup() returns (query: Option<LookupQuery>)
      modifies this`isLookingUp, this`toasts
      ensures old(isLookingUp) ==> query.None? && isLookingUp && toasts == old(toasts)
      ensures var q := LookupQueryOf(old(values));
        !old(isLookingUp) ==>
          (q.Ok? ==> query == Some(q.value) && isLookingUp && toasts == old(toasts)) &&
          (q.Err? ==> query.None? && !isLookingUp && toasts == old(toasts) + [LookupFailedToast])
    {
      if isLookingUp {
        return None;
      }
      var q := LookupQueryOf(values);
      isLookingUp := true;
      if q.Err? {
        toasts := toasts + [LookupFailedToast];
        isLookingUp := false;
        return None;
      }
      query := Some(q.value);
    }

    /** `onLookup` after `lookupGig` resolved to `result`: a failed request or a bad date
        changes no field; otherwise the seven fields are written in order, stopping with
        the failure toast when the country is missing. */
    method CompleteLookup(env: DateEnv, result: Result<GigLookupData>)
      modifies this`values, this`toasts, this`isLookingUp
      ensures !isLookingUp
      ensures result.Err? || LookupDates(env, result.value).Err? ==>
        values == old(values) && toasts == old(toasts) + [LookupFailedToast]
      ensures result.Ok? && LookupDates(env, result.value).Ok? ==>
        var dates := LookupDates(env, result.value).value;
        values == LookupWrites(old(values), result.value, dates.0, dates.1) &&
        toasts == old(toasts) + [if result.value.country.Some? then LookupFilledToast else LookupFailedToast]
    {
      if result.Err? {
        toasts := toasts + [LookupFailedToast];
        isLookingUp := false;
        return;
      }
      var data := result.value;
      var dates := LookupDates(env, data);
      if dates.Err? {
        toasts := toasts + [LookupFailedToast];
        isLookingUp := false;
        return;
      }
      var (ymd, ymd2) := dates.value;
      // the first four writes
      var written := values.(title := data.title.GetOr(""), date := ymd, endDate := ymd2.GetOr(""),
                             city := data.city.GetOr(""));
      if data.country.None? {
        // `data.country.toUpperCase()` throws
        values := written;
        toasts := toasts + [LookupFailedToast];
        isLookingUp := false;
        return;
      }
      values := written.(country := Upper(data.country.value), venue := data.venue.GetOr(""),
                         ticketsUrl := data.ticketsUrl.GetOr(""));
      toasts := toasts + [LookupFilledToast];
      isLookingUp := false;
    }

    /** `onSubmit` with the values `v` the schema accepted, up to `updateGig`: as in the
        create form, but the request goes to this gig's update endpoint. */
    method BeginSubmit(v: GigFormValues, wait: WaitResult, validUrl: string -> bool) returns (call: Option<ApiCall>)
      requires SchemaIssues(values, validUrl) == [] && v == SchemaOutput(values)
      modifies this`isSubmitting, this`toasts
      ensures call.Some? <==> wait.Ready? && !PosterBlocked(poster, validUrl)
      ensures call.Some? ==> (isSubmitting && toasts == old(toasts) &&
        call.value == ApiCall(UpdateEndpoint(gigPublicId), PATCH,
          SubmitData(wait.initData, GigPayloadOf(v), poster, PosterUrlOrUndefined(poster, validUrl).value)))
      ensures !wait.Ready? ==> !isSubmitting && toasts == old(toasts) + [SubmitFailedToast(WaitFailure(wait))]
      ensures wait.Ready? && PosterBlocked(poster, validUrl) ==>
        !isSubmitting && toasts == old(toasts) + [InvalidPosterToast]
    {
      isSubmitting := true;
      if !wait.Ready? {
        toasts := toasts + [SubmitFailedToast(WaitFailure(wait))];
        isSubmitting := false;
        return None;
      }
      var gig := GigPayloadOf(v);
      if poster.mode == Url && Trim(poster.url) != "" && !validUrl(Trim(poster.url)) {
        toasts := toasts + [InvalidPosterToast];
        isSubmitting := false;
        return None;
      }
      PosterCheckAgrees(poster, validUrl);
      var submitted := SubmitGig(UpdateEndpoint(gigPublicId), PATCH, wait.initData, gig, poster, validUrl);
      call := Some(submitted.value);
    }

    /** `onSubmit` after `updateGig` settled: success clears the poster, back to upload
        mode, and goes back; failure shows the error. The values stay either way. */
    method CompleteSubmit(outcome: Result<JsValue>)
      modifies this`isSubmitting, this`toasts, this`poster, this`navigatedBack
      ensures !isSubmitting
      ensures outcome.Ok? ==> (poster == PosterSelection(Upload, None, "") && navigatedBack &&
        toasts == old(toasts) + [UpdatedToast])
      ensures outcome.Err? ==> (poster == old(poster) && navigatedBack == old(navigatedBack) &&
        toasts == old(toasts) + [SubmitFailedToast(outcome.message)])
    {
      if outcome.Err? {
        toasts := toasts + [SubmitFailedToast(outcome.message)];
        isSubmitting := false;
        return;
      }
      toasts := toasts + [UpdatedToast];
      poster := poster.(file := None);
      poster := poster.(url := "");
      poster := poster.(mode := Upload);
      navigatedBack := true;
      isSubmitting := false;
    }

    /** The save button is disabled while submitting, while loading, or without an id. */
    predicate SaveDisabled()
      reads this
    {
      isSubmitting || isLoadingGig || gigPublicId == ""
    }

    /** The card's description before the form is shown. */
    function StatusText(): string
      reads this
    {
      CardStatus(loadGigError)
    }
  }
}
