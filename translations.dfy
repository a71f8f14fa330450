/** `src/lib/translations.server.ts`: the request for a language's translations and the
    fallback that keeps the returned shape stable whatever the backend answers. The call
    itself is not modelled: the response is an input. */
module Translations {
  import opened Common
  import opened Text
  import opened Json
  import opened Uri
  import opened Api

  const TranslationsPath := "/v1/language/translations"
  const NamespacesName := "namespaces"
  const AcceptLanguage := "accept-language"

  /** What `getTranslations` hands to `apiRequest`: the endpoint, the method and the
      headers given (no data). */
  datatype TranslationsRequest = TranslationsRequest(
    endpoint: string,
    verb: HttpMethod,
    headers: seq<(string, string)>)

  /** `namespaces?.join(',')`; None is `undefined`. */
  function NamespacesQuery(namespaces: Option<seq<string>>): Option<string> {
    if namespaces.None? then None else Some(Join(namespaces.value, ","))
  }

  /** The one `qs.set('namespaces', …)` when the joined list is truthy. */
  function QueryParams(namespaces: Option<seq<string>>): seq<Param> {
    var q := NamespacesQuery(namespaces);
    if q.Some? && q.value != "" then [Param(NamespacesName, q.value)] else []
  }

  /** The `accept-language` header when the language is truthy. */
  function RequestHeaders(language: Option<string>): seq<(string, string)> {
    if language.Some? && language.value != "" then [(AcceptLanguage, language.value)] else []
  }

  /** `getTranslations(namespaces, language)`'s request. */
  function Request(namespaces: Option<seq<string>>, language: Option<string>): TranslationsRequest {
    var qs := QueryParams(namespaces);
    var url := TranslationsPath + (if |qs| > 0 then "?" + SerializeParams(qs) else "");
    TranslationsRequest(url, GET, RequestHeaders(language))
  }

  /** The query string of the endpoint, after the fixed path. */
  function QueryOf(r: TranslationsRequest): string {
    if |r.endpoint| >= |TranslationsPath| then r.endpoint[|TranslationsPath|..] else ""
  }

  /** The server reads back the comma-joined namespaces from the query, for ASCII names,
      and finds no `namespaces` parameter when that list is absent or empty. */
  lemma NamespacesReadBack(namespaces: Option<seq<string>>, language: Option<string>)
    requires namespaces.Some? ==> IsAscii(Join(namespaces.value, ","))
    ensures var r := Request(namespaces, language);
      r.endpoint[..|TranslationsPath|] == TranslationsPath &&
      QueryGet(QueryOf(r), NamespacesName) ==
        (if namespaces.Some? && Join(namespaces.value, ",") != "" then Some(Join(namespaces.value, ","))
         else None)
    ensures var r := Request(namespaces, language);
      r.endpoint == TranslationsPath <==> namespaces.None? || Join(namespaces.value, ",") == ""
  {
    var r := Request(namespaces, language);
    var qs := QueryParams(namespaces);
    if |qs| > 0 {
      var j := Join(namespaces.value, ",");
      NamespacesParamReadBack(j);
      assert QueryOf(r) == "?" + SerializeParams(qs);
    } else {
      assert QueryOf(r) == "";
      assert Split("", '&') == [""];
      assert ParsePieces([""]) == [];
    }
  }

  lemma NamespacesParamReadBack(j: string)
    requires IsAscii(j)
    ensures QueryGet("?" + SerializeParams([Param(NamespacesName, j)]), NamespacesName) == Some(j)
  {
    NamespacesNameSafe();
    SerializeSingle(NamespacesName, j);
    var body := NamespacesName + "=" + FormEncode(j);
    QueryReadBack(NamespacesName, j);
    assert body[0] == NamespacesName[0];
    QueryQuestionMark(body, NamespacesName);
  }

  /** The parameter's name is written as it is. */
  lemma NamespacesNameSafe()
    ensures forall i :: 0 <= i < |NamespacesName| ==> IsFormSafeChar(NamespacesName[i])
  {
    var n := NamespacesName;
    assert IsFormSafeChar(n[0]) && IsFormSafeChar(n[1]) && IsFormSafeChar(n[2]);
    assert IsFormSafeChar(n[3]) && IsFormSafeChar(n[4]) && IsFormSafeChar(n[5]);
    assert IsFormSafeChar(n[6]) && IsFormSafeChar(n[7]) && IsFormSafeChar(n[8]);
    assert IsFormSafeChar(n[9]);
  }

  /** An `accept-language` header is sent exactly when a non-empty language is given,
      and it carries that language. */
  lemma AcceptLanguageHeader(namespaces: Option<seq<string>>, language: Option<string>)
    ensures Request(namespaces, language).verb == GET
    ensures var h := HeadersOf(Request(namespaces, language).headers);
      (AcceptLanguage in h <==> language.Some? && language.value != "") &&
      (AcceptLanguage in h ==> h[AcceptLanguage] == language.value)
  {
    assert Request(namespaces, language).headers == RequestHeaders(language);
    AcceptLanguageFolded();
    if language.Some? && language.value != "" {
      HeadersOfSingle(AcceptLanguage, language.value);
    }
  }

  /** The header's name is already in lower case. */
  lemma AcceptLanguageFolded()
    ensures Lower(AcceptLanguage) == AcceptLanguage
  {
    var n := AcceptLanguage;
    assert forall i :: 0 <= i < |n| ==> !('A' <= n[i] <= 'Z');
    LowerOfLowerCase(n);
  }

  // ---------------------------------------------------------------- the fallback shape

  function Fallback(locale: JsValue): JsValue {
    Obj([Prop("locale", locale), Prop("translations", Obj([]))])
  }

  /** What `getTranslations` returns for the value `data` the request resolved to. */
  function TranslationsBody(language: Option<string>, data: JsValue): JsValue {
    var languageOrEn := Str(language.GetOr("en"));
    if !Truthy(data) || !IsObjectType(data) then Fallback(languageOrEn)
    else
      var translations := Get(data, "translations");
      if !Truthy(translations) || !IsObjectType(translations) then
        Fallback(Coalesce(Get(data, "locale"), languageOrEn))
      else data
  }

  /** Whatever the backend answers, the result is an object whose `translations` is a
      (truthy) object. */
  lemma ShapeStable(language: Option<string>, data: JsValue)
    ensures var r := TranslationsBody(language, data);
      r.Obj? && Truthy(Get(r, "translations")) && IsObjectType(Get(r, "translations"))
  {
    var r := TranslationsBody(language, data);
    if r != data {
      LastValueAt(r.props, "translations", 1);
    }
  }

  /** A value that is not an object gives the language or "en", with no translations. */
  lemma NonObjectFallback(language: Option<string>, data: JsValue)
    requires !data.Obj? && !data.Arr?
    ensures TranslationsBody(language, data) == Fallback(Str(language.GetOr("en")))
  {
  }

  /** Missing or non-object translations keep the response's locale, else the language,
      else "en". */
  lemma MissingTranslationsFallback(language: Option<string>, data: JsValue)
    requires data.Obj? && !Get(data, "translations").Obj? && !Get(data, "translations").Arr?
    ensures TranslationsBody(language, data) ==
      Fallback(if IsNullish(Get(data, "locale")) then Str(language.GetOr("en")) else Get(data, "locale"))
  {
  }

  /** A well-formed response is returned as it is, and applying the fallback again
      changes nothing. */
  lemma WellFormedUnchanged(language: Option<string>, data: JsValue)
    ensures data.Obj? && Get(data, "translations").Obj? ==> TranslationsBody(language, data) == data
    ensures var r := TranslationsBody(language, data); TranslationsBody(language, r) == r
  {
    ShapeStable(language, data);
  }
}
