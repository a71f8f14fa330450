# gigs-together front end, modelled in Dafny

A model of the logic in the gigs-together web front end: the Next.js application that
lists upcoming gigs in Barcelona, lets users suggest a gig from a Telegram Mini App, and
lets them edit a gig they suggested. The model covers the parts of the code that compute
or decide something:

- the feed page: paged fetching with an in-flight guard, merging and a stable sort by
  date, infinite scroll, the active date in the header, month grouping and the calendar's
  day click;
- the normalisation of gig dates and the mapping of gigs to events;
- the display form of a location slug and the local `YYYY-MM-DD` form of dates;
- the gig form's validation schema, defaults and date normalisation;
- the API layer: URL joining, request headers and body, error messages,
  the response parsers, the poster selection and the body of a gig submission;
- server-side translations, the `t` function and placeholder interpolation;
- the Telegram init data and start parameter, and the polling wait for the init data;
- the create and edit forms: the start-parameter redirect, the lookup, the submission,
  the edit form's prefill with its request-sequence guard;
- the poster field, the headers (location, home link, calendar, month label and day
  picker), the country list and dictionary, and the feed middleware's redirect.

One Dafny module models one source file. Helper modules model the JavaScript
primitives the code relies on:

- `Common`: Option and Result;
- `Text`: white space, `trim`, ASCII case mapping, `Number` on a field, `String(n)`,
  `padStart`, `split` and `join`;
- `Json`: JavaScript values and `JSON.stringify`;
- `Uri`: `encodeURIComponent`, `decodeURIComponent` (section 2.1 of RFC 3986) and the
  `application/x-www-form-urlencoded` parsing of `URLSearchParams`, the last for ASCII
  text only (see "Left out");
- `Dates`: the environment's calendar and date parser, passed as parameters;
- `Sorting`: the stable `Array.prototype.sort`, with an in-place array algorithm proved
  equal to it.

The shape of the code is kept. Pure code is written as functions and lemmas. Components
and hooks that change state step by step are classes, with one method per event handler:

- `Feed.FeedController`, `Feed.ScrollSync`;
- `CreateGigForm.CreateGigForm`, `EditGigForm.EditGigForm`.

Loops are methods with invariants, proved against a specification function:

- `Feed.FeedController.AvailableDates`, `Feed.FeedController.GroupByMonth`;
- `Telegram.WaitForInitData`;
- `CountriesProvider.GetCountriesDictionary`;
- `Sorting.SortInPlace`.

An `await` splits a handler into a `Begin…` method, which runs up to the request and
returns it, and a `Complete…` method, which takes the response. Responses, clocks,
`new Date` and URL validity are parameters.

## Model

| member | source | states |
|---|---|---|
| Feed.ClosestAbove | src/app/page.tsx:218 | the anchor with the greatest negative top, the first such anchor on ties; none exactly when no top is negative |
| Feed.FirstBelow | src/app/page.tsx:217 | the anchor with the smallest non-negative top, the first such anchor on ties; none exactly when every top is negative |
| Feed.ActiveAnchorChoice | src/app/page.tsx:214-219 | an anchor is chosen exactly when there are anchors; the closest one above the header when one is above, otherwise the first one below |
| Feed.ActiveDateOfAnchor | src/app/page.tsx:211-221 | with anchors, some anchor is chosen from the tops measured below the header, and the active date is its `data-date` if that is non-empty, and nothing otherwise |
| Feed.Tops | src/app/page.tsx:216 | one top per anchor; a top is negative exactly when the anchor lies above the header's bottom, and measuring below the header keeps the anchors' order |
| Feed.Months | src/app/page.tsx:203-208 | one entry per month key, each dated the first of one of the keys' months (the key followed by "-01") and holding that month's group |
| Feed.MonthsOfGroups | src/app/page.tsx:202-209 | over groups keyed by month, the sorted keys are distinct, ascending and the same set; entry i holds the events of month i in list order |
| Feed.EventInOneGroup | src/app/page.tsx:192-200 | an event is in the group of month k exactly when it is in the list and its date's `YYYY-MM` prefix is k |
| Feed.FeedController.GroupByMonth | src/app/page.tsx:192-200 | the loop builds the month keys in first-seen order and the groups by month; the keys are distinct, are exactly the groups' keys, and every event is in its month's group, in list order |
| Feed.MonthGroupsSpec | src/app/page.tsx:192-200 | the keys and groups the loop builds are distinct, agree on their key sets, and hold each event in its own month's group |
| Feed.FeedController.AvailableDates | src/app/page.tsx:91-95 | the result is sorted, has no duplicates, and holds exactly the dates of the events |
| Feed.DayClickChoice | src/app/page.tsx:293-307 | the click scrolls to the first anchor dated on that day; without one, to the registered card of the first event on that day; nothing happens exactly when there is no such anchor and that card, if any, is not registered |
| Feed.SortByDate | src/app/page.tsx:137 | the result is the stable sort of the list by date, and is in ascending date order |
| Feed.MergePage | src/app/page.tsx:131-138 | the merged list is the page's events merged by mode and stably sorted by date |
| Feed.MergedEvents | src/app/page.tsx:134-138 | after merging, the list is sorted by date and holds the page's events when replacing, or the earlier events plus the page's when appending, with no de-duplication; events on one date keep their order, earlier events first |
| Feed.PageIndicesIncrease | src/app/page.tsx:131-132 | the index of any event of an earlier page is below the index of any event of a later page |
| Feed.MapPageAt | src/app/page.tsx:131-132 | the page's event i is gig i mapped with index (page - 1) * 30 + i |
| Feed.MappedIdsDistinct | src/app/page.tsx:131-132 | two events of one page never share an id |
| Feed.PageNumberEncoding | src/app/page.tsx:115-117 | the query serializer leaves the page number unchanged |
| Feed.ScrollSync.constructor | src/app/page.tsx:78-88 | no scroll yet, no raw or visible date, no timer running, no registered cards |
| Feed.ScrollSync.OnUserScroll | src/app/page.tsx:160-162 | marks that the user has scrolled and changes nothing else |
| Feed.ScrollSync.ComputeActiveDate | src/app/page.tsx:211-222 | with no active date, or the same one as before, nothing changes; otherwise the raw date becomes the active date and the 150 ms timer restarts |
| Feed.ScrollSync.DebounceElapsed | src/app/page.tsx:98-105 | when the timer fires, the visible date becomes the raw date |
| Feed.ScrollSync.RegisterEventRef | src/app/page.tsx:259-265 | a mounted card adds its id to the registered set, an unmounted one removes it |
| Feed.FeedController.constructor | src/app/page.tsx:71-76 | no events, loading, no error, page 1, more to load, nothing in flight |
| Feed.FeedController.BeginFetch | src/app/page.tsx:111-129 | in flight: nothing changes and no request is made. Otherwise the flag is set and the endpoint for the page is requested. Replacing raises `loading` and clears the error; appending raises `loadingMore` |
| Feed.FeedController.FetchSucceeded | src/app/page.tsx:131-150 | the events become the merged and sorted list; the page becomes the requested one; more is expected exactly when 30 gigs came back; afterwards the flags are cleared |
| Feed.FeedController.FetchFailed | src/app/page.tsx:144-150 | the error becomes the message, or "An error occurred"; events, page and `hasMore` are kept; afterwards the flags are cleared |
| Feed.FeedController.OnSentinel | src/app/page.tsx:174-179 | the next page is appended exactly when some entry intersects, the user has scrolled, nothing is loading and more is expected; otherwise nothing changes |
| Gigs.ToMsSecondsAndMillis | src/lib/gigs.ts:4 | a time in seconds (from 10^9 to 10^12) and the same time in milliseconds give the same milliseconds |
| Gigs.NumberAndDigitsAgree | src/lib/gigs.ts:6-17 | a numeric date and its digit string, padded with white space or not, give the same day |
| Gigs.GigDateWithTime | src/lib/gigs.ts:11-20 | a trimmed string with a 'T' that is not all digits gives its first ten characters |
| Gigs.GigDateOfYmd | src/lib/gigs.ts:11-23 | a trimmed `YYYY-MM-DD` string gives itself |
| Gigs.GigDateFallback | src/lib/gigs.ts:25-29 | a string no rule matches, which the date parser also rejects, gives itself trimmed |
| Gigs.GigDtoToEventFields | src/lib/gigs.ts:32-44 | the event's date is the gig's normalised date, its id that date + "-" + index, its poster the gig's `posterUrl`, and the other fields are copied |
| Gigs.EventIdsDistinct | src/lib/gigs.ts:36 | events with different indices have different ids, whatever their dates |
| Utils.CapitalizeExamples | src/lib/utils.ts:14-17 | the words of the documented examples: "barcelona" to "Barcelona", "new"/"york" to "New"/"York", and "SAN"/"SEBASTIAN" to "San"/"Sebastian" |
| Utils.NormalizePlainWord | src/lib/utils.ts:15 | a plain word comes out capitalised, as "barcelona" becomes "Barcelona" |
| Utils.NormalizeTwoWords | src/lib/utils.ts:16-17 | two plain words joined by '-' or '_' become the two capitalised words joined by one space, as "new-york" becomes "New York" |
| Utils.NormalizeEmpty | src/lib/utils.ts:19-31 | the result is empty exactly when the input is empty or decodes to white space only |
| Utils.NormalizeMalformed | src/lib/utils.ts:22-27 | a malformed escape does not throw: the raw input is normalised instead |
| Utils.NormalizeMalformedExample | src/lib/utils.ts:22-27 | "50%" comes out as "50%" |
| Utils.CollapseRunsChars | src/lib/utils.ts:29 | collapsing runs only keeps characters outside the class, or writes spaces |
| Utils.CollapseSpacesSingle | src/lib/utils.ts:29 | after white-space runs collapse, no two white-space characters are adjacent |
| Utils.CollapseOutsideClass | src/lib/utils.ts:29 | a string with no character of the class is left as it is |
| Utils.CollapseRunsNonEmpty | src/lib/utils.ts:29 | collapsing runs makes no string empty |
| Utils.NormalizeSpacingShape | src/lib/utils.ts:29 | the normalised slug has no '-' or '_' and no two adjacent white-space characters |
| Utils.TitleCaseAt | src/lib/utils.ts:33-41 | title-casing keeps the length; each character is the title-cased form of the input character at the same place |
| Utils.TitleCaseKeepsShape | src/lib/utils.ts:33-41 | title-casing creates no separator and keeps which characters are white space |
| Utils.NormalizeShape | src/lib/utils.ts:19-42 | the result has no '-' or '_' and no two adjacent white-space characters |
| Utils.NormalizeWords | src/lib/utils.ts:29-41 | the result's words are the normalised slug's words, each capitalised |
| Utils.ToLocalYmdOfDateShape | src/lib/utils.ts:47-51 | a local date with a four-digit year and a valid month and day prints as `YYYY-MM-DD`, and reading that string back gives the same text |
| Utils.ToLocalYmdOfCanonical | src/lib/utils.ts:53-55 | a `YYYY-MM-DD` string whose year has no leading zero comes back unchanged |
| Utils.YmdRoundTrip | src/lib/utils.ts:53-55 | `<y>-<mm>-<dd>`, with a canonical year and two-digit fields, comes back unchanged |
| Utils.ToLocalYmdPadsFields | src/lib/utils.ts:54-55 | one-digit month and day fields get a leading zero, as "2024-1-5" becomes "2024-01-05" |
| GigFormShared.SchemaAccepts | src/app/gig-form/gig-form.shared.ts:3-25 | a form has no issues exactly when: the title has at least 2 characters; the date has the date shape; the end date is accepted; the city and country are non-empty; the venue has at least 2 characters; and the tickets URL is valid |
| GigFormShared.SchemaIssuesInOrder | src/app/gig-form/gig-form.shared.ts:3-25 | the issues are the messages of the failing fields, in the order the schema declares the fields |
| GigFormShared.SchemaIssueMessages | src/app/gig-form/gig-form.shared.ts:3-25 | each field's message is among the issues exactly when that field fails its rule; a short title's message comes first and an invalid tickets URL's last |
| GigFormShared.BlankEndDateAbsent | src/app/gig-form/gig-form.shared.ts:10-18 | a blank end date is accepted and parsed as absent; any other end date is accepted exactly when it has the date shape, and then it is kept as it is |
| GigFormShared.DefaultsRejected | src/app/gig-form/gig-form.shared.ts:29-37 | the defaults are Barcelona and ES with every other field empty; they fail with the title, date and venue messages first |
| GigFormShared.DateToYmdBlank | src/app/gig-form/gig-form.shared.ts:39-42 | an absent or blank date gives nothing |
| GigFormShared.DateToYmdWithTime | src/app/gig-form/gig-form.shared.ts:41-44 | a trimmed date with a 'T' gives its first ten characters, checked before the date shape |
| GigFormShared.DateToYmdOfYmd | src/app/gig-form/gig-form.shared.ts:41-46 | a trimmed `YYYY-MM-DD` date gives itself |
| GigFormShared.DateToYmdUnparsable | src/app/gig-form/gig-form.shared.ts:47-48 | a date that no rule matches and that the parser rejects gives nothing |
| GigFormShared.DateToYmdNonEmpty | src/app/gig-form/gig-form.shared.ts:44-46 | a date taken by the 'T' rule or the shape rule is never empty |
| GigFormApi.IsRecordExactlyObjects | src/lib/gig-form-api.ts:51-53 | of the JavaScript values, `isRecord` holds exactly for objects: not null, not arrays, not primitives |
| GigFormApi.AsRecord | src/lib/gig-form-api.ts:55-60 | objects pass unchanged; anything else fails with "Invalid API response: expected an object" |
| GigFormApi.RequireString | src/lib/gig-form-api.ts:62-68 | succeeds exactly for a string property with non-white-space content, and returns it untrimmed; otherwise fails with the key's "must be a non-empty string" message |
| GigFormApi.OptionalString | src/lib/gig-form-api.ts:70-77 | undefined, null and "" are absent; other non-strings fail with the key's "when present" message; any other string, white space included, is returned as it is |
| GigFormApi.OptionalNonEmptyString | src/lib/gig-form-api.ts:79-87 | undefined, null and blank strings are absent; other non-strings fail; other strings are returned trimmed |
| GigFormApi.DraftFields | src/lib/gig-form-api.ts:89-101 | a parsed draft came from an object; its six required fields are that object's non-blank strings; its optional fields are its strings when present |
| GigFormApi.DraftAccepted | src/lib/gig-form-api.ts:89-101 | an object whose six required fields are non-blank strings, and whose optional fields are nullish or strings, parses |
| GigFormApi.DraftTitleFirst | src/lib/gig-form-api.ts:91-92 | a missing or non-string title is the error reported, whatever else is wrong |
| GigFormApi.EditDataOrder | src/lib/gig-form-api.ts:103-110 | the draft's error comes first; after a valid draft, a bad `publicId` gives its message, and otherwise the id is paired with the draft |
| GigFormApi.LookupFailures | src/lib/gig-form-api.ts:112-124 | lookup parsing fails exactly for a non-object, or a field that is present and not a string; an empty object gives all fields absent |
| GigFormApi.PosterUrlOrUndefined | src/lib/gig-form-api.ts:126-133 | a poster URL exactly in URL mode with a non-blank, valid URL, returned trimmed; a non-blank invalid URL throws "Invalid URL"; otherwise none |
| GigFormApi.SubmitGig | src/lib/gig-form-api.ts:137-176 | an invalid poster URL fails; otherwise the call goes to the given endpoint with the given method and the body `SubmitData` selects |
| GigFormApi.BodySelection | src/lib/gig-form-api.ts:154-175 | multipart exactly in upload mode with a file: the file, then the gig's JSON, then the init data. Otherwise the JSON body has the gig, with the poster URL when there is one, and the init data |
| GigFormApi.EndDateWritten | src/lib/gig-form-api.ts:147 | the serialized gig holds the end date only when it is present and non-empty |
| GigFormApi.PosterUrlWritten | src/lib/gig-form-api.ts:165-169 | the serialized gig holds `posterUrl` exactly when a poster URL was found |
| GigFormApi.GigObjectShape | src/lib/gig-form-api.ts:144-152 | the gig object has seven string-or-undefined fields in declaration order, the third being `endDate`, plus `posterUrl` last when there is one |
| GigFormApi.LookupRequest | src/lib/gig-form-api.ts:195-216 | a blank name fails with the name message, then a blank location with the location message; otherwise the POST to `v1/gig/lookup` carries both trimmed |
| GigFormApi.LookupWithoutGig | src/lib/gig-form-api.ts:217 | a response whose `gig` is not an object fails with the "expected an object" message |
| GigFormApi.UpdateEndpointSegment | src/lib/gig-form-api.ts:241 | the update endpoint ends in one path segment without '/', which decodes back to the id |
| Api.FormData.constructor | src/lib/gig-form-api.ts:158 | a new `FormData` has no entries |
| Api.FormData.Append | src/lib/gig-form-api.ts:159-161 | an append adds one entry, with its name and value, after the existing ones |
| Api.AbsoluteEndpointKept | src/lib/api.ts:7 | an endpoint starting with `http://` or `https://`, in any case, is used as it is, with or without a base |
| Api.MissingBase | src/lib/api.ts:8-10 | a relative endpoint fails exactly when no base is configured or the base is empty, with the "Missing NEXT_PUBLIC_API_BASE_URL" message |
| Api.JoinedWithOneSlash | src/lib/api.ts:11 | the URL is the base without at most one trailing '/', then one '/', then the endpoint without at most one leading '/' |
| Api.HeadersOfNames | src/lib/api.ts:23 | the headers hold a name exactly when the caller's headers hold it in some case |
| Api.HeadersOfSingle | src/lib/api.ts:23 | one header is stored under its lower-case name |
| Api.Headers.constructor | src/lib/api.ts:23 | the new headers are the caller's, by lower-case name, a repeated name joining its values with ", " |
| Api.Headers.Delete | src/lib/api.ts:26 | removes the name, in any case, and nothing else |
| Api.Headers.Set | src/lib/api.ts:29 | sets the name, in any case, to the value, and keeps the others |
| Api.PrepareRequest | src/lib/api.ts:14-44 | fails exactly on the URL's error. Multipart data drops any Content-Type; JSON data gets `application/json` unless the caller set one. GET, HEAD and falsy data send no body; form data goes as it is; anything else goes as JSON |
| Api.Outcome | src/lib/api.ts:46-57 | resolves exactly for an ok response whose body could be read, to the parsed JSON for a JSON response and to the text body otherwise; a JSON body that does not parse throws the parser's error |
| Api.FailurePreference | src/lib/api.ts:51-55 | a failed response throws its text body; for a JSON object, its truthy `message`, else "Something went wrong" |
| Api.FailureWithMessage | src/lib/api.ts:51-55 | a failed JSON response whose `message` is a non-empty string throws that string |
| Translations.NamespacesReadBack | src/lib/translations.server.ts:39-46 | the query holds `namespaces` exactly when the comma-joined list is non-empty, and reading it back gives the joined list; with no query the endpoint is the bare path |
| Translations.AcceptLanguageHeader | src/lib/translations.server.ts:48-49 | the request is a GET, and has an `accept-language` header exactly when a non-empty language is given, with that language as its value |
| Translations.ShapeStable | src/lib/translations.server.ts:60-68 | every result is an object whose `translations` is a truthy object |
| Translations.NonObjectFallback | src/lib/translations.server.ts:61-63 | a response that is not an object gives the language, or "en", with no translations |
| Translations.MissingTranslationsFallback | src/lib/translations.server.ts:64-66 | an object without an object `translations` gives its locale, else the language, else "en", with no translations |
| Translations.WellFormedUnchanged | src/lib/translations.server.ts:68 | a response with an object `translations` is returned unchanged, and a result passes through again unchanged |
| Telegram.InitDataFromLocation | src/lib/telegram-webapp.ts:5-16 | init data from the location is never empty |
| Telegram.AppDataWins | src/lib/telegram-webapp.ts:1-3 | the app object's init data, even the empty string, is used although the URL hash carries init data of its own |
| Telegram.InitDataFromHash | src/lib/telegram-webapp.ts:8-10 | init data placed in the hash as `#tgWebAppData=<encoded>` is read back as it was |
| Telegram.HashOverSearch | src/lib/telegram-webapp.ts:8-13 | with init data in both the hash and the query string, the hash's is read back |
| Telegram.EmptyHashFallsThrough | src/lib/telegram-webapp.ts:9-13 | an empty `tgWebAppData` in the hash falls through to the query string, whose value is read back as written |
| Telegram.NoInitData | src/lib/telegram-webapp.ts:1-16 | with no app object and an empty URL the init data is the empty string |
| Telegram.AppStartParamWins | src/lib/telegram-webapp.ts:19-23 | the app object's non-empty `start_param` wins over a `tgWebAppStartParam` in the query string |
| Telegram.StartParamFromQuery | src/lib/telegram-webapp.ts:19-23 | without an app start parameter, `?tgWebAppStartParam=<encoded>` is read back as written |
| Telegram.StartAppFallback | src/lib/telegram-webapp.ts:19-23 | without the first two, `?startapp=<encoded>` is read back as written, the empty value included |
| Telegram.NoStartParam | src/lib/telegram-webapp.ts:19-23 | with none of the three the start parameter is the empty string |
| Telegram.WaitForInitData | src/lib/telegram-webapp.ts:26-48 | the loop's result is the wait as defined poll by poll: the time test, then the abort check, then the init data |
| Telegram.ReadyIsFirst | src/lib/telegram-webapp.ts:36-41 | a ready result is the first non-empty init data, seen within the time limit; no earlier poll was aborted or found data |
| Telegram.AbortBeforeData | src/lib/telegram-webapp.ts:37-39 | an abort seen within the time limit throws the `AbortError`, even when init data is there |
| Telegram.NeverReadyTimesOut | src/lib/telegram-webapp.ts:36-47 | without data or an abort, the wait ends with the "not available" error |
| Telegram.PollsWithinLimit | src/lib/telegram-webapp.ts:42 | after k sleeps at least k intervals, and at least k ms, have passed, so the loop ends |
| Telegram.NegativeTimeout | src/lib/telegram-webapp.ts:36 | a negative timeout polls nothing and throws the "not available" error |
| I18n.WordRun | src/lib/i18n/I18nProvider.tsx:20 | the longest prefix of word characters |
| I18n.PlaceholderAt | src/lib/i18n/I18nProvider.tsx:20 | a placeholder found at the start is `{`, then the whole non-empty run of word characters that follows, then `}` |
| I18n.NoPlaceholders | src/lib/i18n/I18nProvider.tsx:18-25 | a template without braces is returned unchanged, with or without params |
| I18n.PlaceholderReplaced | src/lib/i18n/I18nProvider.tsx:20-24 | a `{word}` placeholder is replaced by its text, and scanning resumes after it, so substituted text is not scanned again |
| I18n.OtherPlaceholderKept | src/lib/i18n/I18nProvider.tsx:20 | braces around a name with a non-word character are kept as they are |
| I18n.SubstituteParam | src/lib/i18n/I18nProvider.tsx:21-23 | a placeholder becomes `String(value)` when its param is neither null nor undefined, and stays as it was otherwise |
| I18n.NullishParamsIdentity | src/lib/i18n/I18nProvider.tsx:19-24 | params that are all null or undefined leave the template unchanged |
| I18n.NoTextsIdentity | src/lib/i18n/I18nProvider.tsx:19-24 | with no usable params, every template is returned unchanged |
| I18n.TOfEntry | src/lib/i18n/I18nProvider.tsx:35-42 | in a record holding one entry under the folded namespace and the key, a string `value` is interpolated and a value of any other type gives the key |
| I18n.TOfMissing | src/lib/i18n/I18nProvider.tsx:38-40 | a key or folded namespace the record does not hold gives the key itself |
| I18n.EmptyNamespaceIsDefault | src/lib/i18n/I18nProvider.tsx:36 | an empty namespace is read as "default" |
| I18n.NamespaceIdempotent | src/lib/i18n/I18nProvider.tsx:36 | folding a namespace twice is folding it once |
| I18n.FallbackIsEmptyTranslations | src/lib/i18n/I18nProvider.tsx:53-62 | without a provider, `t` is the lookup over no translations, which always returns the key; the locale is "en" |
| CreateGigForm.RedirectRule | src/app/gig-form/CreateGigFormClient.tsx:42-50 | a redirect happens exactly when the trimmed start parameter is 1 to 64 ASCII letters, digits or '-'; it goes to `/gig-form/<token>/edit`, and the token survives encoding as it is |
| CreateGigForm.Location | src/app/gig-form/CreateGigFormClient.tsx:134 | the location is the city and the country joined by ", " when both are given, the one that is given otherwise, and "" when neither is |
| CreateGigForm.LookupQueryOf | src/app/gig-form/CreateGigFormClient.tsx:131-140 | fails with the title message for a blank title, then with the location message when city and country are both blank; otherwise the query has the trimmed title and location, both non-empty |
| CreateGigForm.LookupDates | src/app/gig-form/CreateGigFormClient.tsx:143-153 | fails exactly when the date is absent or unnormalisable, or a present end date is unnormalisable, checked in that order; otherwise both dates normalised |
| CreateGigForm.MergeKeepsAbsent | src/app/gig-form/CreateGigFormClient.tsx:155-165 | the date is always written; every other field the result lacks keeps its current value |
| CreateGigForm.MergeIdempotent | src/app/gig-form/CreateGigFormClient.tsx:155-165 | applying the same lookup twice is applying it once |
| CreateGigForm.MergedCountryUpper | src/app/gig-form/CreateGigFormClient.tsx:159-161 | a looked-up country is written upper-cased, with its length kept |
| CreateGigForm.GigPayloadOf | src/app/gig-form/CreateGigFormClient.tsx:65-73 | the payload copies the fields; an empty end date becomes absent |
| CreateGigForm.PosterCheckAgrees | src/app/gig-form/CreateGigFormClient.tsx:75-86 | the form's check blocks exactly the posters whose URL the API layer would reject |
| CreateGigForm.ResetProperties | src/app/gig-form/CreateGigFormClient.tsx:99-106 | the reset keeps the city and country, clears the rest, is idempotent, and gives a form that fails validation |
| CreateGigForm.CreateGigForm.constructor | src/app/gig-form/CreateGigFormClient.tsx:30-40 | the form starts with the defaults, an empty upload-mode poster, no toasts, and nothing running |
| CreateGigForm.CreateGigForm.BeginLookup | src/app/gig-form/CreateGigFormClient.tsx:127-140 | ignored while a lookup runs; a bad query toasts the failure and ends the lookup; otherwise the query is sent and the lookup runs |
| CreateGigForm.CreateGigForm.CompleteLookup | src/app/gig-form/CreateGigFormClient.tsx:141-177 | a failed request or bad dates leave the form unchanged and toast the failure; otherwise the result is merged and the filled toast shown; the lookup ends either way |
| CreateGigForm.CreateGigForm.BeginSubmit | src/app/gig-form/CreateGigFormClient.tsx:60-92 | called only with the schema's output for the current, valid values; the create call is made exactly when init data arrived and the poster is not blocked, with the body for the payload and poster; otherwise the wait's failure or the invalid-poster toast is shown and submitting ends |
| CreateGigForm.CreateGigForm.CompleteSubmit | src/app/gig-form/CreateGigFormClient.tsx:94-124 | success resets the form keeping the location, clears the poster's file and URL, and toasts; failure toasts the message and changes nothing; submitting ends either way |
| EditGigForm.LoadDates | src/app/gig-form/EditGigFormClient.tsx:74-81 | the load fails exactly when the date does not normalise, or when an end date is present and does not; each failure has its own message; otherwise both dates are their normalised form, and the end date is absent exactly when none was sent |
| EditGigForm.LoadRules | src/app/gig-form/EditGigFormClient.tsx:66-96 | a load fails exactly when waiting for init data fails, the fetch fails or the dates are bad, with that step's message; otherwise the form holds the defaults overwritten by the gig's fields, the country in capitals, the end date or "", and the current poster is the gig's or "" |
| EditGigForm.LookupOverwritesAll | src/app/gig-form/EditGigFormClient.tsx:226-232 | when the lookup returned a country, all seven fields are overwritten, so the result does not depend on what the form held; each field is the lookup's value, or "" for a missing one |
| EditGigForm.LookupStopsAtCountry | src/app/gig-form/EditGigFormClient.tsx:226-232 | when the lookup returned no country, the upper-casing throws after title, dates and city were written; country, venue and tickets URL keep their values |
| EditGigForm.LookupAgainstCreate | src/app/gig-form/EditGigFormClient.tsx:226-232 | when the lookup returned every field, the edit form's writes are the create form's merge; they differ only in writing "" for a missing end date |
| EditGigForm.EditGigForm.constructor | src/app/gig-form/EditGigFormClient.tsx:24-45 | the form starts with the defaults, nothing loading, no error, not prefilled, an empty upload-mode poster, no load started and no toasts |
| EditGigForm.EditGigForm.Effect | src/app/gig-form/EditGigFormClient.tsx:47-64 | nothing happens without an id or once the id is loaded; otherwise a new numbered load starts, the previous controller is aborted, the new one is current and cleaned up by the next run, the card shows loading and no error |
| EditGigForm.EditGigForm.Cleanup | src/app/gig-form/EditGigFormClient.tsx:126-129 | the cleanup aborts the load of the effect run it belongs to, once |
| EditGigForm.EditGigForm.Abort | src/app/gig-form/EditGigFormClient.tsx:56-58 | the timeout of a load still running aborts that load's signal and nothing else |
| EditGigForm.EditGigForm.Retry | src/app/gig-form/EditGigFormClient.tsx:259-262 | available only when the card offers Retry (not prefilled, truthy error); the reload key goes up by one |
| EditGigForm.EditGigForm.CompleteLoad | src/app/gig-form/EditGigFormClient.tsx:65-122 | an aborted load changes neither form, error nor toasts; a good load fills the form and poster, marks the gig loaded and shows the form only if it is the latest; a failed one toasts its message and shows the error only if it is the latest, after which the card offers Retry exactly when the message is non-empty; only the latest load ends the spinner; the invariant is kept |
| EditGigForm.EditGigForm.ApplyOutcome | src/app/gig-form/EditGigFormClient.tsx:82-115 | the try and catch part of a load: the effects above, apart from the finally block |
| EditGigForm.EditGigForm.FinishLoad | src/app/gig-form/EditGigFormClient.tsx:116-122 | the load is no longer pending, its controller is released if current, the spinner stops if it is the latest; the invariant is kept |
| EditGigForm.EditGigForm.BeginLookup | src/app/gig-form/EditGigFormClient.tsx:201-215 | ignored while a lookup runs; a missing title or location toasts the failure and ends the lookup; otherwise the query is sent |
| EditGigForm.EditGigForm.CompleteLookup | src/app/gig-form/EditGigFormClient.tsx:215-244 | a failed request or bad dates leave the form unchanged and toast the failure; otherwise the fields are written in order, with the filled toast when a country came back and the failure toast when the upper-casing threw; the lookup ends either way |
| EditGigForm.EditGigForm.BeginSubmit | src/app/gig-form/EditGigFormClient.tsx:139-172 | called only with the schema's output for the current, valid values; the PATCH to the gig's update endpoint is made exactly when init data arrived and the poster is not blocked, with the payload and poster; otherwise the failure or invalid-poster toast is shown and submitting ends |
| EditGigForm.EditGigForm.CompleteSubmit | src/app/gig-form/EditGigFormClient.tsx:174-198 | success clears the poster, goes back and toasts "Updated!"; failure toasts the message and keeps poster and page; submitting ends either way |
| EditGigForm.EmptyErrorStuck | src/app/gig-form/EditGigFormClient.tsx:255-263 | as written, a recorded error shows as "Error: …" with Retry exactly when its message is non-empty; the empty message shows "Loading…" with no Retry |
| EditGigForm.IntendedStatusShowsEveryError | src/app/gig-form/EditGigFormClient.tsx:255-263 | with the intended null test, "Loading…" is shown exactly when no error is recorded and Retry is offered for every error; it agrees with the code except on the empty message |
| PosterField.ToggleRules | src/app/gig-form/_components/PosterField.tsx:78-86 | an empty toggle keeps the mode and a choice becomes it; afterwards upload mode has no URL and URL mode no file, and the part of the new mode is kept |
| PosterField.ToggleIdempotent | src/app/gig-form/_components/PosterField.tsx:78-86 | toggling twice to the same value equals toggling once; an empty toggle of a selection that holds only its mode's part changes nothing |
| PosterField.PreviewRules | src/app/gig-form/_components/PosterField.tsx:62-69 | in upload mode the preview is the file's object URL, none without a file; in URL mode a non-blank URL is shown trimmed, otherwise the edit form falls back to the current poster and the create form shows none |
| PosterField.DescriptionDistinct | src/app/gig-form/_components/PosterField.tsx:53-60 | the help texts of the create and edit forms in the two modes are four distinct texts |
| PosterField.LinkMatchesFallbackPreview | src/app/gig-form/_components/PosterField.tsx:62-139 | the create form never links the current poster; in the edit form with no URL typed, the preview falls back to the current poster exactly when the link to it is shown, and both show that poster |
| PosterField.ClearRules | src/app/gig-form/_components/PosterField.tsx:107-111 | in upload mode Clear is disabled exactly when there is no preview; after switching to URL mode it is disabled |
| Header.OmittedSwitchesAreOn | src/app/_components/Header.tsx:26-63 | leaving `showSuggestGig` or `showCalendar` out is the same as passing true: the link is passed on and the calendar gets the header's dates; false drops either |
| Header.LabelRules | src/app/_components/Header.tsx:34 | without a city the label is the country in capitals; a plain lower-case city is title-cased |
| Header.HomeHrefSegments | src/app/_components/Header.tsx:35 | the home link is /feed/ and the country, followed by / and the city exactly when there is a city |
| AppHeader.Segment | src/app/_components/AppHeader.tsx:13 | the `[^/]+` group: the longest prefix without '/', followed by '/' or the end |
| AppHeader.PartRules | src/app/_components/AppHeader.tsx:16-23 | a part is missing exactly when decoding throws; otherwise it is the decoded, trimmed, lower-cased text, or the default when that is blank; absent captures give the default |
| AppHeader.LocationWellFormed | src/app/_components/AppHeader.tsx:10-26 | every location read from a path has a non-empty country and city without upper-case letters |
| AppHeader.OutsideFeedDefaults | src/app/_components/AppHeader.tsx:13-14 | a path outside /feed/<segment> gives Spain and Barcelona |
| AppHeader.MatchTwoSegments | src/app/_components/AppHeader.tsx:13 | for /feed/a/b followed by the end or a further segment, the captures are a and b |
| AppHeader.MatchOneSegment | src/app/_components/AppHeader.tsx:13 | for /feed/a, with or without a trailing '/', only a is captured |
| AppHeader.LocationOfSegments | src/app/_components/AppHeader.tsx:10-26 | /feed/a/b reads as the parts of a and b, fails exactly on a bad escape in either, and further segments do not change it |
| AppHeader.HomeHrefRoundTrip | src/app/_components/AppHeader.tsx:10-26 | the header's home link reads back as its own country and city, the default city when the city is empty |
| AppHeader.PlainReadsBack | src/app/_components/AppHeader.tsx:16-19 | a segment that has no '/', '%', upper-case letters or outer blanks reads back as itself |
| AppHeader.HeaderSwitches | src/app/_components/AppHeader.tsx:29-44 | the calendar is shown exactly on feed paths and the suggest link is hidden exactly on gig-form paths, never both; a missing path gives the root's props |
| TopForm.YearMonth | src/app/_components/TopForm.tsx:18-21 | a year and month are found only when both are at least 1 |
| TopForm.DashRules | src/app/_components/TopForm.tsx:17-24 | the label is the dash exactly for a missing or empty date, or when the year or month field is missing, zero or not a number |
| TopForm.LabelOfDate | src/app/_components/TopForm.tsx:17-36 | for y-m with digits, the label is the month's name and the year, and the picker opens on the first of that month, years below 100 counted from 1900 |
| TopForm.LabelAgreesWithPicker | src/app/_components/TopForm.tsx:17-36 | the label is the dash exactly when the picker has no month; otherwise both name the same month, and the same year only for years from 100 and months to 12 |
| TopForm.ClickRules | src/app/_components/TopForm.tsx:38-43 | a click reaches the callback exactly for an available day and passes that day; without available dates every day is disabled |
| TopForm.OpenShowsLabelledMonth | src/app/_components/TopForm.tsx:31-52 | opening shows the first of the month the label names, or today under the dash; closing keeps that month, and reopening on the same date gives the same picker |
| Countries.CountriesWellFormed | src/lib/countries.ts:8-10 | every country has a non-empty upper-case code and a non-empty name, and there are no more countries than items |
| Countries.CountriesConcat | src/lib/countries.ts:8-10 | the filter keeps order: the countries of a + b are those of a then those of b |
| Countries.CountriesOfOne | src/lib/countries.ts:9-10 | an item is kept exactly when it has a code and a name, and becomes a country with its code in capitals |
| Countries.CountriesIdempotent | src/lib/countries.ts:8-10 | reading the normalised list again changes nothing |
| Countries.FromPairsKeys | src/lib/countries.ts:12 | the keys of the Map are exactly the pairs' keys |
| Countries.FromPairsLast | src/lib/countries.ts:12 | for a repeated key, the last pair wins |
| Countries.CountryByIsoRules | src/lib/countries.ts:12 | the codes of the map are the countries' codes, each mapped to the name of the last country with it |
| CountriesProvider.GetCountriesDictionary | src/app/_components/CountriesProvider.tsx:21-28 | the loop builds the dictionary of the countries that are not skipped |
| CountriesProvider.DictionaryKeys | src/app/_components/CountriesProvider.tsx:23-25 | the keys are exactly the codes of countries with a code and a name, and no value is empty |
| CountriesProvider.DictionaryLast | src/app/_components/CountriesProvider.tsx:25 | for a code used twice, the last country with a name wins |
| CountriesProvider.DictionaryEmpty | src/app/_components/CountriesProvider.tsx:24 | when every country is skipped the dictionary is empty |
| Middleware.LandsOnDefaultFeed | middleware.ts:10-18 | every /feed request lands, after at most one redirect, on the default feed with its own query string and the rest of its URL, and is then let through; the default feed itself is not redirected |
| Middleware.NoRedirectLoop | middleware.ts:10-23 | the redirect target is matched and passed through, so there is no loop; paths outside /feed are never redirected |
| Middleware.RedirectTargetLocation | middleware.ts:4 | the page a redirect lands on shows Spain and Barcelona in the header |
| Sorting.StableSortSorted | src/app/page.tsx:137 | the stable sort is in ascending key order |
| Sorting.StableSortMultiset | src/app/page.tsx:137 | the stable sort is a permutation of its input |
| Sorting.StableSortWithKey | src/app/page.tsx:137 | the elements with one key keep their relative order |
| Sorting.SortInPlace | src/app/page.tsx:137 | the array is sorted in place into the stable sort of its old contents |

## Left out

- Rendering: the JSX, styling, toasts as displayed, and the components that only lay out others are not modelled; a toast is recorded as its title, text and variant.
- Network: `fetch`, the `apiRequest` calls and the server-side countries loader are not modelled; every response or failure is an input of a `Complete…` method or of a parser.
- Time and browser events: `setTimeout`, the 150 ms debounce timer, the `requestAnimationFrame` throttle, `IntersectionObserver`, `ResizeObserver` and `AbortController` timeouts are explicit method calls (`DebounceElapsed`, `OnSentinel`, `Abort`, `Cleanup`) with no real timing; the polling loop reads an abstract clock.
- React scheduling: state updates take effect at once, in program order; batching, stale closures and responses that arrive after unmount are not modelled.
- Environment-dependent dates: the local calendar fields of `new Date(ms)`, `Date.parse`/`new Date(s)` and `toISOString` are fields of an environment record passed as a parameter, not definitions; `new Date()` in the date picker is a parameter.
- Locale formatting: `toLocaleString`/`toLocaleDateString` in the feed's month and day titles are not modelled, because their output depends on the browser's locale data; the month label of the date picker uses the fixed en-US month names.
- Case mapping: `toUpperCase`, `toLowerCase` and their locale forms change only the ASCII letters; the full Unicode case tables are not modelled.
- Utils.YmdRoundTrip: `Number` in `toLocalYMD` is exact in the model for any number of digits. In the source a field past 2^53 loses digits ("9007199254740993-01-01" prints as "9007199254740992-01-01") and one from 10^21 up prints in exponent form, so the round trip holds there only for years up to 2^53. The same holds for Utils.ToLocalYmdPadsFields.
- Numbers: JSON numbers are integers; floating point, NaN as a value, `Infinity` and fractional timestamps are not modelled.
- TopForm.YearMonth: `Number` on a date field accepts only blank text and decimal digits; a field with a sign, a decimal point, an exponent or a hex prefix is NaN in the model, while JavaScript reads it as a number. The same holds for TopForm.DashRules, so a month field "1e1" is month 10 in the source and gives the dash in the model.
- URL validity: `new URL(...)` and zod's `.url()` are a parameter `validUrl`, because the WHATWG URL parser is not modelled.
- Object URLs: `URL.createObjectURL` is a parameter of the poster preview, and `revokeObjectURL` is not modelled.
- Error values: a rejection that is not an `Error` (and, on the edit form's submit, not a string) gives the fixed fallback message; the model's failures always carry an `Error`'s message, so that branch is not reached.
- Logging: `console.error` calls are not modelled.
- EditGigForm.LookupWrites: a field missing from the lookup result is written as `undefined` by the source; the model writes the empty string the input then shows.
- CountriesProvider.GetCountriesDictionary: the dictionary is a plain object in the source, so a code such as `__proto__` behaves differently; the model uses a map.
- CountriesProvider: the `Country` type of the server module declares only the code, so the name is modelled as optional text; names that are not strings are not modelled.
- Countries: items of `countries.json` whose code or name is not a string are not modelled, so `String(...)` is the identity there.
- Header: `onDayClick` is passed to the calendar untouched and is not modelled; the environment's Telegram and GitHub links only reach the rendering and are left out, and the suggest-gig link is a parameter.
- Dates: where a member takes the environment's `Dates` calendar or parser as a parameter, years beyond the range of a JavaScript `Date` are not excluded and that parameter decides what such dates give. TopForm takes no such parameter; its two lines follow.
- TopForm.FormatDisplayMonth: when the first of the month falls after September 275760, the last month a JavaScript `Date` can hold (months past 12 carried into the year, so "275760-10" and "275759-22" already do), `new Date(y, m - 1, 1)` is invalid and the source's label reads "Invalid Date" before the year, while the model names a month. Years past 2^53 also lose digits in `Number` in the source and not in the model. The same holds for TopForm.MonthLabel, TopForm.LabelOfDate, TopForm.LabelAgreesWithPicker and TopForm.OpenShowsLabelledMonth.
- TopForm.MonthFromVisibleDate: for the same dates the source's picker opens on an invalid `Date`, while the model opens it on the first of the month as a `LocalDate`. The same holds for TopForm.FirstOfMonth and TopForm.OnOpenChange.
- `cn` in `src/lib/utils.ts` only joins class names and is not modelled.
- SortByDate: `localeCompare` is modelled as code-point order. The two agree on canonical `YYYY-MM-DD` dates, but differ on case and non-ASCII text, which a raw date kept by the date fallback can hold.
- Feed.FeedController.AvailableDates: the default `.sort()` compares UTF-16 code units and the model compares code points; the orders differ only for characters outside the Basic Multilingual Plane. The same holds for the sorted month keys in Feed.MonthsOfGroups.
- SchemaAccepts: zod's `.min(n)` counts UTF-16 code units and the model counts code points, so a title or venue of one character outside the Basic Multilingual Plane (an emoji) passes the source and fails the model. The same holds for SchemaIssues, SchemaIssuesInOrder and SchemaIssueMessages.
- Uri.FormDecode: the `URLSearchParams` parser UTF-8-decodes escapes from `%80` up, while the model keeps them as written; `?startapp=%C3%A9` gives "é" in a browser and "%C3%A9" in the model. The Telegram read-back lemmas are stated for ASCII values only.
- I18n.SubstituteParam: `params[name]` reads through the prototype chain in the source, so `{constructor}` with params that lack it becomes the text of the `Object` function; the model's params are a map and keep the placeholder.
- Feed.FeedController.GroupByMonth: `eventsByMonth` is a plain object in the source, so a month key such as `constructor` or `__proto__` (from a raw date the fallback kept) finds an inherited value and the `push` throws; the model uses a map and groups such keys like any other.
- Telegram.WaitForInitData: each sleep is assumed to last at least 1 ms even when the interval is 0 or negative (the clock's `ClockAdvances` requirement); the loop's termination rests on that assumption, while a browser may run a 0 ms timer with no measurable delay.
- GigFormApi.PosterUrlOrUndefined: `new URL` throws a `TypeError` whose message depends on the JavaScript engine; the model uses the fixed text "Invalid URL".

## Findings

| source | as written | input that shows it | evidently intended | confidence | as-written member | corrected member |
|---|---|---|---|---|---|---|
| src/app/gig-form/EditGigFormClient.tsx:255-263 | the card tests `loadGigError` for truthiness, both for the "Error: …" text and for the Retry button | the gig fetch answers a non-ok response with a `text/plain` empty body: `apiRequest` throws `new Error("")` (src/lib/api.ts:51-55), the catch stores `""`, loading ends, and the card says "Loading…" with no Retry, so it stays stuck. A latest load that the 15 s timeout aborts ends the same way (lines 56-58 abort it, lines 101-103 return before any error is stored, lines 117-122 stop the spinner), and EditGigForm.CompleteLoad leaves the error unset there too; the correction below covers the empty message only, since with no error stored no test of `loadGigError` can offer Retry | report every recorded error, the empty one included, and offer Retry for it (`loadGigError !== null`) | not executed; the empty body needs a server that answers an error with no text | EditGigForm.EmptyErrorStuck | EditGigForm.IntendedStatusShowsEveryError |
