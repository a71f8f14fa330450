/** `src/lib/api.ts`: the one request helper every call goes through. It joins the
    endpoint to the configured base URL, fixes the `Content-Type` header, chooses the body,
    and turns a response into its value or into the error it throws. The network call is
    not modelled: the response is an input. */
module Api {
  import opened Common
  import opened Text
  import opened Json

  datatype HttpMethod = GET | HEAD | POST | PUT | DELETE | PATCH

  /** A file the user picked; only its identity matters here. */
  datatype File = File(name: string, size: nat)

  /** A `FormData` entry's value; `JsonText(v)` is the string `JSON.stringify(v)`. */
  datatype FormValue = FileValue(file: File) | TextValue(text: string) | JsonText(json: JsValue)

  datatype Entry = Entry(name: string, value: FormValue)

  /** A browser `FormData` that is filled by successive `append` calls. */
  class FormData {
    var entries: seq<Entry>

    constructor()
      ensures entries == []
    {
      entries := [];
    }

    /** `fd.append(name, value)` */
    method Append(name: string, value: FormValue)
      modifies this
      ensures entries == old(entries) + [Entry(name, value)]
    {
      entries := entries + [Entry(name, value)];
    }
  }

  /** The `data` argument: a `FormData` (by its entries) or any other value. */
  datatype Data = FormDataValue(entries: seq<Entry>) | Plain(v: JsValue)

  /** `!!data`: a `FormData` is an object and so truthy. */
  predicate DataTruthy(d: Data) {
    d.FormDataValue? || Truthy(d.v)
  }

  /** The request body: none, the `FormData` itself, or the JSON text of a value, which
      is represented by the value it writes out. */
  datatype Body = NoBody | Multipart(entries: seq<Entry>) | JsonBody(json: JsValue)

  // ---------------------------------------------------------------- URL

  const MissingBaseMessage := "Missing NEXT_PUBLIC_API_BASE_URL for direct API calls"

  /** `/^https?:\/\//i.test(s)`; without the `u` flag only ASCII letters fold. */
  predicate IsAbsoluteUrl(s: string) {
    (|s| >= 7 && Lower(s[..7]) == "http://") || (|s| >= 8 && Lower(s[..8]) == "https://")
  }

  /** `s.replace(/\/$/, '')` */
  function DropTrailingSlash(s: string): string {
    if s != [] && s[|s| - 1] == '/' then s[..|s| - 1] else s
  }

  /** `s.replace(/^\//, '')` */
  function DropLeadingSlash(s: string): string {
    if s != [] && s[0] == '/' then s[1..] else s
  }

  /** `buildUrl`: `base` is `NEXT_PUBLIC_API_BASE_URL`, None when it is not set. */
  function BuildUrl(base: Option<string>, endpoint: string): Result<string> {
    if IsAbsoluteUrl(endpoint) then Ok(endpoint)
    else if base.None? || base.value == "" then Err(MissingBaseMessage)
    else Ok(DropTrailingSlash(base.value) + "/" + DropLeadingSlash(endpoint))
  }

  /** An absolute endpoint, in any letter case, is used as it is, with or without a base. */
  lemma AbsoluteEndpointKept(base: Option<string>, endpoint: string)
    requires (|endpoint| >= 7 && Lower(endpoint[..7]) == "http://") ||
             (|endpoint| >= 8 && Lower(endpoint[..8]) == "https://")
    ensures BuildUrl(base, endpoint) == Ok(endpoint)
  {
  }

  /** A relative endpoint fails exactly when no base is configured. */
  lemma MissingBase(base: Option<string>, endpoint: string)
    requires !IsAbsoluteUrl(endpoint)
    ensures BuildUrl(base, endpoint).Err? <==> (base.None? || base.value == "")
    ensures BuildUrl(base, endpoint).Err? ==> BuildUrl(base, endpoint).message == MissingBaseMessage
  {
  }

  /** Joining removes at most one '/' from the end of the base and at most one from the
      start of the endpoint, and puts exactly one '/' between them. */
  lemma JoinedWithOneSlash(b: string, endpoint: string) returns (head: string, tail: string)
    requires b != "" && !IsAbsoluteUrl(endpoint)
    ensures BuildUrl(Some(b), endpoint) == Ok(head + "/" + tail)
    ensures b == head + "/" || (b == head && b[|b| - 1] != '/')
    ensures endpoint == "/" + tail || (endpoint == tail && (tail == [] || tail[0] != '/'))
  {
    head, tail := DropTrailingSlash(b), DropLeadingSlash(endpoint);
    if b[|b| - 1] == '/' { assert b == head + "/"; }
    if endpoint != [] && endpoint[0] == '/' { assert endpoint == "/" + tail; }
  }

  // ---------------------------------------------------------------- headers

  /** `new Headers(init)`: names fold to lower case and a repeated name joins its values
      with ", ". */
  function HeadersOf(init: seq<(string, string)>): map<string, string> {
    if init == [] then map[]
    else
      var m := HeadersOf(init[..|init| - 1]);
      var (name, value) := init[|init| - 1];
      var key := Lower(name);
      if key in m then m[key := m[key] + ", " + value] else m[key := value]
  }

  /** Every name given, folded, is a header; nothing else is. */
  lemma {:induction false} HeadersOfNames(init: seq<(string, string)>, key: string)
    ensures key in HeadersOf(init) <==> exists i :: 0 <= i < |init| && Lower(init[i].0) == key
  {
    if init != [] {
      var front := init[..|init| - 1];
      HeadersOfNames(front, key);
      assert forall i :: 0 <= i < |front| ==> front[i] == init[i];
      if key in HeadersOf(front) {
        var i :| 0 <= i < |front| && Lower(front[i].0) == key;
        assert Lower(init[i].0) == key;
      }
    }
  }

  /** One header, under its folded name. */
  lemma HeadersOfSingle(name: string, value: string)
    ensures HeadersOf([(name, value)]) == map[Lower(name) := value]
  {
    assert [(name, value)][..0] == [];
  }

  class Headers {
    var fields: map<string, string>

    constructor(init: seq<(string, string)>)
      ensures fields == HeadersOf(init)
    {
      var m: map<string, string> := map[];
      var i := 0;
      while i < |init|
        invariant 0 <= i <= |init|
        invariant m == HeadersOf(init[..i])
      {
        var (name, value) := init[i];
        var key := Lower(name);
        assert init[..i + 1][..i] == init[..i];
        if key in m {
          m := m[key := m[key] + ", " + value];
        } else {
          m := m[key := value];
        }
        i := i + 1;
      }
      assert init[..i] == init;
      fields := m;
    }

    /** `headers.has(name)` */
    predicate Has(name: string)
      reads this
    {
      Lower(name) in fields
    }

    /** `headers.delete(name)` */
    method Delete(name: string)
      modifies this
      ensures fields == old(fields) - {Lower(name)}
    {
      fields := fields - {Lower(name)};
    }

    /** `headers.set(name, value)` */
    method Set(name: string, value: string)
      modifies this
      ensures fields == old(fields)[Lower(name) := value]
    {
      fields := fields[Lower(name) := value];
    }
  }

  // ---------------------------------------------------------------- the request

  datatype Prepared = Prepared(url: string, verb: HttpMethod, headers: map<string, string>, body: Body)

  /** The header name, folded to lower case as the headers store it. */
  lemma ContentTypeFolded()
    ensures Lower("Content-Type") == "content-type"
  {
    var n, l := "Content-Type", "content-type";
    assert LowerChar(n[0]) == l[0] && LowerChar(n[8]) == l[8];
    assert forall i :: 0 <= i < |n| && i != 0 && i != 8 ==> LowerChar(n[i]) == l[i];
  }

  /** What `apiRequest` hands to `fetch`, or the error thrown before the call: the
      headers are fixed, the body is chosen, and the URL is built. */
  method PrepareRequest(base: Option<string>, endpoint: string, verb: HttpMethod, data: Data,
                        init: seq<(string, string)>) returns (r: Result<Prepared>)
    ensures r.Err? <==> BuildUrl(base, endpoint).Err?
    ensures r.Err? ==> r.message == MissingBaseMessage
    ensures r.Ok? ==> r.value.url == BuildUrl(base, endpoint).value && r.value.verb == verb
    ensures r.Ok? && data.FormDataValue? ==> r.value.headers == HeadersOf(init) - {"content-type"}
    ensures r.Ok? && data.Plain? ==>
      r.value.headers == if "content-type" in HeadersOf(init) then HeadersOf(init)
                         else HeadersOf(init)["content-type" := "application/json"]
    ensures r.Ok? ==>
      (r.value.body.NoBody? <==> verb == GET || verb == HEAD || !DataTruthy(data))
    ensures r.Ok? && r.value.body.Multipart? ==> data == FormDataValue(r.value.body.entries)
    ensures r.Ok? && r.value.body.JsonBody? ==> data.Plain? && r.value.body.json == Serialized(data.v)
  {
    var isFormData := data.FormDataValue?;
    var headers := new Headers(init);
    ContentTypeFolded();
    if isFormData {
      if headers.Has("Content-Type") {
        headers.Delete("Content-Type");
      }
    } else {
      if !headers.Has("Content-Type") {
        headers.Set("Content-Type", "application/json");
      }
    }
    var body: Body;
    if verb != GET && verb != HEAD && DataTruthy(data) {
      body := if isFormData then Multipart(data.entries) else JsonBody(Serialized(data.v));
    } else {
      body := NoBody;
    }
    var url := BuildUrl(base, endpoint);
    if url.Err? {
      return Err(url.message);
    }
    r := Ok(Prepared(url.value, verb, headers.fields, body));
  }

  // ---------------------------------------------------------------- the response

  /** A response: `ok`, the `Content-Type` header, the text body, and the outcome of
      `response.json()` (its error is the `SyntaxError` it throws). */
  datatype Response = Response(ok: bool, contentType: Option<string>, text: string, json: Result<JsValue>)

  const DefaultErrorMessage := "Something went wrong"
  const NullMessageError := "Cannot read properties of null (reading 'message')"

  predicate IsJsonResponse(resp: Response) {
    Contains(resp.contentType.GetOr(""), "application/json")
  }

  /** The message of the `Error` a failed response throws: a string result itself,
      else the truthy `message` of the result, else the default. */
  function FailureMessage(result: JsValue): string {
    if result.Str? then result.s
    else if IsNullish(result) then NullMessageError
    else if Truthy(Get(result, "message")) then ToStr(Get(result, "message"))
    else DefaultErrorMessage
  }

  /** What `apiRequest` resolves to or throws for a response: an ok response resolves to
      its parsed JSON when it is JSON and to its text otherwise, and a JSON body that does
      not parse throws the parser's error whether or not the response is ok. */
  function Outcome(resp: Response): (r: Result<JsValue>)
    ensures r.Ok? <==> resp.ok && (!IsJsonResponse(resp) || resp.json.Ok?)
    ensures r.Ok? ==> r.value == if IsJsonResponse(resp) then resp.json.value else Str(resp.text)
    ensures IsJsonResponse(resp) && resp.json.Err? ==> r == Err(resp.json.message)
  {
    var result := if IsJsonResponse(resp) then resp.json else Ok(Str(resp.text));
    match result
    case Err(m) => Err(m)
    case Ok(v) => if resp.ok then Ok(v) else Err(FailureMessage(v))
  }

  /** A failed response throws, preferring the text body (even an empty one), then the
      JSON `message`, then the default message. */
  lemma FailurePreference(resp: Response)
    requires !resp.ok
    ensures !IsJsonResponse(resp) ==> Outcome(resp) == Err(resp.text)
    ensures IsJsonResponse(resp) && resp.json.Ok? && resp.json.value.Obj? ==>
      Outcome(resp) == Err(if Truthy(Get(resp.json.value, "message"))
                           then ToStr(Get(resp.json.value, "message"))
                           else DefaultErrorMessage)
  {
  }

  /** A JSON object's `message` string becomes the error's message as it is. */
  lemma FailureWithMessage(resp: Response, props: seq<Prop>, message: string)
    requires !resp.ok && IsJsonResponse(resp) && resp.json == Ok(Obj(props))
    requires message != "" && Get(Obj(props), "message") == Str(message)
    ensures Outcome(resp) == Err(message)
  {
  }
}
