/** `src/lib/gig-form-api.ts`: the gig form's calls to the API. The responses are
    validated field by field, and each fails with the message of the first field that
    breaks its rule. The submission chooses between a multipart body and two JSON shapes,
    depending on the poster. */
module GigFormApi {
  import opened Common
  import opened Text
  import opened Json
  import opened Uri
  import opened Api

  const ExpectedObjectMessage := "Invalid API response: expected an object"
  /** The message of the `TypeError` that `new URL` throws for an invalid URL. */
  const InvalidUrlMessage := "Invalid URL"

  /** `isRecord`: truthy, of type "object" and not an array. */
  predicate IsRecord(v: JsValue) {
    Truthy(v) && IsObjectType(v) && !v.Arr?
  }

  /** The values that pass are exactly the objects. */
  lemma IsRecordExactlyObjects(v: JsValue)
    ensures IsRecord(v) <==> v.Obj?
  {
  }

  /** `asRecordOrThrow` */
  function AsRecord(raw: JsValue): (r: Result<JsValue>)
    ensures r.Ok? <==> raw.Obj?
    ensures r.Ok? ==> r.value == raw
    ensures r.Err? ==> r.message == ExpectedObjectMessage
  {
    if !IsRecord(raw) then Err(ExpectedObjectMessage) else Ok(raw)
  }

  function NonEmptyMessage(key: string): string {
    "Invalid API response: \"" + key + "\" must be a non-empty string"
  }

  function StringWhenPresentMessage(key: string): string {
    "Invalid API response: \"" + key + "\" must be a string when present"
  }

  /** `requireString`: a string with some non-white-space content, returned untrimmed. */
  function RequireString(obj: JsValue, key: string): (r: Result<string>)
    ensures r.Ok? <==> Get(obj, key).Str? && !IsBlank(Get(obj, key).s)
    ensures r.Ok? ==> r.value == Get(obj, key).s
    ensures r.Err? ==> r.message == NonEmptyMessage(key)
  {
    var v := Get(obj, key);
    // `!v.trim()`: trimming leaves nothing exactly when the string is blank
    if !v.Str? || IsBlank(v.s) then Err(NonEmptyMessage(key)) else Ok(v.s)
  }

  /** `optionalString`: undefined, null and "" are absent; other strings are kept as
      they are, white space included. */
  function OptionalString(obj: JsValue, key: string): (r: Result<Option<string>>)
    ensures var v := Get(obj, key);
      (r == Ok(None) <==> IsNullish(v) || v == Str("")) &&
      (r.Err? <==> !IsNullish(v) && !v.Str?) &&
      (r.Ok? && r.value.Some? ==> v == Str(r.value.value) && r.value.value != "")
    ensures r.Err? ==> r.message == StringWhenPresentMessage(key)
  {
    var v := Get(obj, key);
    if IsNullish(v) || v == Str("") then Ok(None)
    else if !v.Str? then Err(StringWhenPresentMessage(key))
    else Ok(Some(v.s))
  }

  /** `optionalNonEmptyString`: undefined and null are absent; a string is trimmed, and
      absent when nothing is left. */
  function OptionalNonEmptyString(obj: JsValue, key: string): (r: Result<Option<string>>)
    ensures var v := Get(obj, key);
      (r.Err? <==> !IsNullish(v) && !v.Str?) &&
      (r == Ok(None) <==> IsNullish(v) || (v.Str? && IsBlank(v.s))) &&
      (r.Ok? && r.value.Some? ==> v.Str? && r.value.value == Trim(v.s) && r.value.value != "")
    ensures r.Err? ==> r.message == StringWhenPresentMessage(key)
  {
    var v := Get(obj, key);
    if IsNullish(v) then Ok(None)
    else if !v.Str? then Err(StringWhenPresentMessage(key))
    else
      var trimmed := Trim(v.s);
      if trimmed != "" then Ok(Some(trimmed)) else Ok(None)
  }

  datatype GigDraftData = GigDraftData(
    title: string,
    date: string,
    endDate: Option<string>,
    city: string,
    country: string,
    venue: string,
    ticketsUrl: string,
    posterUrl: Option<string>)

  datatype GigForEditData = GigForEditData(publicId: string, draft: GigDraftData)

  datatype GigLookupData = GigLookupData(
    title: Option<string>,
    date: Option<string>,
    endDate: Option<string>,
    city: Option<string>,
    country: Option<string>,
    venue: Option<string>,
    ticketsUrl: Option<string>,
    posterUrl: Option<string>)

  /** `parseGigDraftData`: the fields are read in declaration order. */
  function ParseGigDraftData(raw: JsValue): Result<GigDraftData> {
    var obj :- AsRecord(raw);
    var title :- RequireString(obj, "title");
    var date :- RequireString(obj, "date");
    var endDate :- OptionalString(obj, "endDate");
    var city :- RequireString(obj, "city");
    var country :- RequireString(obj, "country");
    var venue :- RequireString(obj, "venue");
    var ticketsUrl :- RequireString(obj, "ticketsUrl");
    var posterUrl :- OptionalString(obj, "posterUrl");
    Ok(GigDraftData(title, date, endDate, city, country, venue, ticketsUrl, posterUrl))
  }

  /** `parseGigForEditData`: the draft first, then `publicId`. */
  function ParseGigForEditData(raw: JsValue): Result<GigForEditData> {
    var obj :- AsRecord(raw);
    var draft :- ParseGigDraftData(obj);
    var publicId :- RequireString(obj, "publicId");
    Ok(GigForEditData(publicId, draft))
  }

  /** `parseGigLookupData`: every field optional. */
  function ParseGigLookupData(raw: JsValue): Result<GigLookupData> {
    var obj :- AsRecord(raw);
    var title :- OptionalNonEmptyString(obj, "title");
    var date :- OptionalNonEmptyString(obj, "date");
    var endDate :- OptionalNonEmptyString(obj, "endDate");
    var city :- OptionalNonEmptyString(obj, "city");
    var country :- OptionalNonEmptyString(obj, "country");
    var venue :- OptionalNonEmptyString(obj, "venue");
    var ticketsUrl :- OptionalNonEmptyString(obj, "ticketsUrl");
    var posterUrl :- OptionalNonEmptyString(obj, "posterUrl");
    Ok(GigLookupData(title, date, endDate, city, country, venue, ticketsUrl, posterUrl))
  }

  // ---------------------------------------------------------------- parser properties

  /** The six required fields hold non-blank strings, copied as they are; the optional
      ones are absent or their string. */
  lemma DraftFields(raw: JsValue)
    requires ParseGigDraftData(raw).Ok?
    ensures var d := ParseGigDraftData(raw).value;
      raw.Obj? &&
      Get(raw, "title") == Str(d.title) && !IsBlank(d.title) &&
      Get(raw, "date") == Str(d.date) && !IsBlank(d.date) &&
      Get(raw, "city") == Str(d.city) && !IsBlank(d.city) &&
      Get(raw, "country") == Str(d.country) && !IsBlank(d.country) &&
      Get(raw, "venue") == Str(d.venue) && !IsBlank(d.venue) &&
      Get(raw, "ticketsUrl") == Str(d.ticketsUrl) && !IsBlank(d.ticketsUrl) &&
      (d.endDate.Some? ==> Get(raw, "endDate") == Str(d.endDate.value)) &&
      (d.posterUrl.Some? ==> Get(raw, "posterUrl") == Str(d.posterUrl.value))
  {
  }

  /** A required field that `requireString` accepts. */
  predicate RequiredOk(obj: JsValue, key: string) {
    Get(obj, key).Str? && !IsBlank(Get(obj, key).s)
  }

  /** An optional field that `optionalString` accepts. */
  predicate OptionalOk(obj: JsValue, key: string) {
    IsNullish(Get(obj, key)) || Get(obj, key).Str?
  }

  /** Every well-formed object passes: the conditions are exactly the field rules. */
  lemma DraftAccepted(props: seq<Prop>)
    requires RequiredOk(Obj(props), "title") && RequiredOk(Obj(props), "date") &&
      RequiredOk(Obj(props), "city") && RequiredOk(Obj(props), "country") &&
      RequiredOk(Obj(props), "venue") && RequiredOk(Obj(props), "ticketsUrl")
    requires OptionalOk(Obj(props), "endDate") && OptionalOk(Obj(props), "posterUrl")
    ensures ParseGigDraftData(Obj(props)).Ok?
  {
  }

  /** A missing title is reported first, whatever else is wrong. */
  lemma DraftTitleFirst(props: seq<Prop>)
    requires !Get(Obj(props), "title").Str?
    ensures ParseGigDraftData(Obj(props)) == Err(NonEmptyMessage("title"))
  {
  }

  /** The edit data is the draft plus `publicId`, which is checked only after every
      draft field has passed. */
  lemma EditDataOrder(raw: JsValue)
    ensures ParseGigDraftData(raw).Err? ==> ParseGigForEditData(raw) == Err(ParseGigDraftData(raw).message)
    ensures ParseGigDraftData(raw).Ok? ==>
      ParseGigForEditData(raw) ==
        (if RequireString(raw, "publicId").Err? then Err(NonEmptyMessage("publicId"))
         else Ok(GigForEditData(Get(raw, "publicId").s, ParseGigDraftData(raw).value)))
  {
  }

  /** A field `optionalNonEmptyString` refuses: present and not a string. */
  predicate LookupFieldBad(raw: JsValue, key: string) {
    !IsNullish(Get(raw, key)) && !Get(raw, key).Str?
  }

  /** The lookup fails only for a non-object or a field that is present and not a string:
      an object whose fields are all missing gives an all-absent result. */
  lemma LookupFailures(raw: JsValue)
    ensures ParseGigLookupData(raw).Err? <==>
      !raw.Obj? ||
      LookupFieldBad(raw, "title") || LookupFieldBad(raw, "date") ||
      LookupFieldBad(raw, "endDate") || LookupFieldBad(raw, "city") ||
      LookupFieldBad(raw, "country") || LookupFieldBad(raw, "venue") ||
      LookupFieldBad(raw, "ticketsUrl") || LookupFieldBad(raw, "posterUrl")
    ensures raw == Obj([]) ==>
      ParseGigLookupData(raw) == Ok(GigLookupData(None, None, None, None, None, None, None, None))
  {
  }

  // ---------------------------------------------------------------- submission

  datatype PosterMode = Upload | Url

  datatype PosterSelection = PosterSelection(mode: PosterMode, file: Option<File>, url: string)

  /** `GigUpsertPayload` */
  datatype GigPayload = GigPayload(
    title: string,
    date: string,
    endDate: Option<string>,
    city: string,
    country: string,
    venue: string,
    ticketsUrl: string)

  /** `getPosterUrlOrUndefined`: only in URL mode, the trimmed URL, which must be valid. */
  function PosterUrlOrUndefined(poster: PosterSelection, validUrl: string -> bool): (r: Result<Option<string>>)
    ensures r.Ok? && r.value.Some? <==>
      poster.mode == Url && !IsBlank(poster.url) && validUrl(Trim(poster.url))
    ensures r.Ok? && r.value.Some? ==> r.value.value == Trim(poster.url)
    ensures r.Err? <==> poster.mode == Url && !IsBlank(poster.url) && !validUrl(Trim(poster.url))
    ensures r.Err? ==> r.message == InvalidUrlMessage
  {
    if poster.mode != Url then Ok(None)
    else
      var trimmed := Trim(poster.url);
      if trimmed == "" then Ok(None)
      else if !validUrl(trimmed) then Err(InvalidUrlMessage)
      else Ok(Some(trimmed))
  }

  /** The gig object sent: `endDate || undefined`, and `posterUrl` added when given. */
  function GigObject(gig: GigPayload, posterUrl: Option<string>): JsValue {
    var endDate := if gig.endDate.Some? && gig.endDate.value != "" then Str(gig.endDate.value) else Undefined;
    Obj([Prop("title", Str(gig.title)), Prop("date", Str(gig.date)), Prop("endDate", endDate),
         Prop("city", Str(gig.city)), Prop("country", Str(gig.country)), Prop("venue", Str(gig.venue)),
         Prop("ticketsUrl", Str(gig.ticketsUrl))] +
        (if posterUrl.Some? then [Prop("posterUrl", Str(posterUrl.value))] else []))
  }

  /** A request `apiRequest` is asked to make. */
  datatype ApiCall = ApiCall(endpoint: string, verb: HttpMethod, data: Data)

  /** The data `submitGig` sends, given the poster URL `getPosterUrlOrUndefined` found:
      a file in upload mode goes as multipart, a poster URL inside the gig of a JSON body,
      and otherwise the gig alone. */
  function SubmitData(initData: string, gig: GigPayload, poster: PosterSelection,
                      posterUrl: Option<string>): Data {
    if poster.mode == Upload && poster.file.Some? then
      FormDataValue([
        Entry("posterFile", FileValue(poster.file.value)),
        Entry("gig", JsonText(Serialized(GigObject(gig, None)))),
        Entry("telegramInitDataString", TextValue(initData))])
    else
      Plain(Obj([Prop("gig", GigObject(gig, posterUrl)), Prop("telegramInitDataString", Str(initData))]))
  }

  /** `submitGig`: an invalid poster URL fails before anything is sent; otherwise the
      data is built into a `FormData` or a JSON object. */
  method SubmitGig(endpoint: string, verb: HttpMethod, initData: string, gig: GigPayload,
                   poster: PosterSelection, validUrl: string -> bool) returns (call: Result<ApiCall>)
    ensures PosterUrlOrUndefined(poster, validUrl).Err? ==> call == Err(InvalidUrlMessage)
    ensures PosterUrlOrUndefined(poster, validUrl).Ok? ==>
      call == Ok(ApiCall(endpoint, verb, SubmitData(initData, gig, poster, PosterUrlOrUndefined(poster, validUrl).value)))
  {
    var posterUrl := PosterUrlOrUndefined(poster, validUrl);
    if posterUrl.Err? {
      return Err(posterUrl.message);
    }
    if poster.mode == Upload && poster.file.Some? {
      var e1 := Entry("posterFile", FileValue(poster.file.value));
      var e2 := Entry("gig", JsonText(Serialized(GigObject(gig, None))));
      var e3 := Entry("telegramInitDataString", TextValue(initData));
      var fd := new FormData();
      fd.Append(e1.name, e1.value);
      fd.Append(e2.name, e2.value);
      fd.Append(e3.name, e3.value);
      assert fd.entries == [e1, e2, e3];
      return Ok(ApiCall(endpoint, verb, FormDataValue(fd.entries)));
    }
    var body := Obj([Prop("gig", GigObject(gig, posterUrl.value)), Prop("telegramInitDataString", Str(initData))]);
    call := Ok(ApiCall(endpoint, verb, Plain(body)));
  }

  /** The three kinds of body: a file in upload mode is always sent as multipart, the
      gig written without a poster URL; otherwise JSON, the poster URL inside the gig
      exactly when one was found. A URL-mode selection never sends its file. */
  lemma BodySelection(initData: string, gig: GigPayload, poster: PosterSelection, validUrl: string -> bool)
    requires PosterUrlOrUndefined(poster, validUrl).Ok?
    ensures var posterUrl := PosterUrlOrUndefined(poster, validUrl).value;
      var d := SubmitData(initData, gig, poster, posterUrl);
      (d.FormDataValue? <==> poster.mode == Upload && poster.file.Some?) &&
      (d.FormDataValue? ==> (|d.entries| == 3 && d.entries[0] == Entry("posterFile", FileValue(poster.file.value)) &&
        d.entries[1].value == JsonText(Serialized(GigObject(gig, None))))) &&
      (d.Plain? ==> (Get(d.v, "gig") == GigObject(gig, posterUrl) &&
        Get(d.v, "telegramInitDataString") == Str(initData))) &&
      (posterUrl.Some? ==> poster.mode == Url && d.Plain?)
  {
    var posterUrl := PosterUrlOrUndefined(poster, validUrl).value;
    var d := SubmitData(initData, gig, poster, posterUrl);
    if d.Plain? {
      LastValueAt(d.v.props, "gig", 0);
    }
  }

  /** The written end date: `endDate || undefined`, so an empty or missing one is left
      out, and a present one is written as it is, with or without a poster URL. */
  lemma EndDateWritten(gig: GigPayload, posterUrl: Option<string>)
    ensures Get(Serialized(GigObject(gig, posterUrl)), "endDate") ==
      if gig.endDate.Some? && gig.endDate.value != "" then Str(gig.endDate.value) else Undefined
  {
    var props := GigObject(gig, posterUrl).props;
    GigObjectShape(gig, posterUrl);
    SerializedFlatAt(props, "endDate", 2);
  }

  /** The written poster URL: present exactly when one is given. */
  lemma PosterUrlWritten(gig: GigPayload, posterUrl: Option<string>)
    ensures Get(Serialized(GigObject(gig, posterUrl)), "posterUrl") ==
      if posterUrl.Some? then Str(posterUrl.value) else Undefined
  {
    var props := GigObject(gig, posterUrl).props;
    GigObjectShape(gig, posterUrl);
    if posterUrl.Some? {
      SerializedFlatAt(props, "posterUrl", 7);
    } else {
      SerializedFlatAbsent(props, "posterUrl");
    }
  }

  /** The gig object's seven fixed properties come first, `endDate` third, and the poster
      URL last when given; every value is a string or `undefined`. */
  lemma GigObjectShape(gig: GigPayload, posterUrl: Option<string>)
    ensures var props := GigObject(gig, posterUrl).props;
      |props| == (if posterUrl.Some? then 8 else 7) &&
      (forall j :: 0 <= j < |props| ==> props[j].value.Str? || props[j].value.Undefined?) &&
      props[2].key == "endDate" &&
      props[2].value == (if gig.endDate.Some? && gig.endDate.value != "" then Str(gig.endDate.value) else Undefined) &&
      (forall j :: 0 <= j < |props| && j != 2 ==> props[j].key != "endDate") &&
      (forall j :: 0 <= j < 7 ==> props[j].key != "posterUrl") &&
      (posterUrl.Some? ==> props[7] == Prop("posterUrl", Str(posterUrl.value)))
  {
    var props := GigObject(gig, posterUrl).props;
    assert props[0].key == "title";
    assert props[1].key == "date";
    assert props[3].key == "city";
    assert props[4].key == "country";
    assert props[5].key == "venue";
    assert props[6].key == "ticketsUrl";
  }

  // ---------------------------------------------------------------- the calls

  const LookupNameMessage := "Invalid lookup request: \"name\" is required"
  const LookupLocationMessage := "Invalid lookup request: \"location\" is required"

  /** `lookupGig`'s request: both inputs trimmed and required. */
  function LookupRequest(name: string, location: string): (r: Result<ApiCall>)
    ensures r.Err? <==> IsBlank(name) || IsBlank(location)
    ensures IsBlank(name) ==> r == Err(LookupNameMessage)
    ensures !IsBlank(name) && IsBlank(location) ==> r == Err(LookupLocationMessage)
    ensures r.Ok? ==> r.value == ApiCall("v1/gig/lookup", POST,
      Plain(Obj([Prop("name", Str(Trim(name))), Prop("location", Str(Trim(location)))])))
  {
    var n := Trim(name);
    var l := Trim(location);
    if n == "" then Err(LookupNameMessage)
    else if l == "" then Err(LookupLocationMessage)
    else Ok(ApiCall("v1/gig/lookup", POST, Plain(Obj([Prop("name", Str(n)), Prop("location", Str(l))]))))
  }

  /** `raw?.gig` then the lookup parser. */
  function LookupResult(raw: JsValue): Result<GigLookupData> {
    ParseGigLookupData(if IsNullish(raw) then Undefined else Get(raw, "gig"))
  }

  /** A response without a `gig` object fails with the object error. */
  lemma LookupWithoutGig(raw: JsValue)
    requires !Get(raw, "gig").Obj?
    ensures LookupResult(raw) == Err(ExpectedObjectMessage)
  {
  }

  /** `fetchGigForEdit`'s request. */
  function FetchForEditRequest(publicId: string, initData: string): ApiCall {
    ApiCall("v1/receiver/gig/get", POST,
      Plain(Obj([Prop("publicId", Str(publicId)), Prop("telegramInitDataString", Str(initData))])))
  }

  /** `createGig`'s endpoint and method. */
  const CreateEndpoint := "v1/receiver/gig"

  /** `updateGig`'s endpoint: the id percent-encoded as one path segment. */
  function UpdateEndpoint(publicId: string): string {
    "v1/receiver/gig/" + EncodeComponent(publicId)
  }

  /** The encoded id holds no '/', so it stays one segment, and decodes to the id. */
  lemma UpdateEndpointSegment(publicId: string)
    ensures var seg := UpdateEndpoint(publicId)[|"v1/receiver/gig/"|..];
      '/' !in seg && DecodeComponent(seg) == Some(publicId)
  {
    var seg := EncodeComponent(publicId);
    assert UpdateEndpoint(publicId)[|"v1/receiver/gig/"|..] == seg;
    NoSlashInEncoding(publicId);
    DecodeEncode(publicId);
  }

  lemma {:induction false} NoSlashInEncoding(s: string)
    ensures '/' !in EncodeComponent(s)
  {
    if s != [] {
      NoSlashInEncoding(s[1..]);
      if !IsUnescaped(s[0]) {
        NoSlashInEscapes(Utf8(s[0]));
      }
    }
  }

  lemma {:induction false} NoSlashInEscapes(bs: seq<byte>)
    ensures '/' !in EscapeAll(bs)
  {
    if bs != [] {
      NoSlashInEscapes(bs[1..]);
      assert EscapeAll(bs) == Escape(bs[0]) + EscapeAll(bs[1..]);
    }
  }
}
