/** `src/lib/i18n/I18nProvider.tsx`: the translation function `t`, which finds the
    namespace's entry for a key and fills its `{name}` placeholders from the parameters,
    and the fallback `t` used outside a provider, which returns the key. */
module I18n {
  import opened Common
  import opened Text
  import opened Json

  /** `\w`: ASCII letters, digits and the underscore. */
  predicate IsWordChar(c: char) {
    ('a' <= c <= 'z') || ('A' <= c <= 'Z') || ('0' <= c <= '9') || c == '_'
  }

  /** The length of the run of word characters `s` starts with. */
  function WordRun(s: string): (n: nat)
    ensures n <= |s|
    ensures forall i :: 0 <= i < n ==> IsWordChar(s[i])
    ensures n < |s| ==> !IsWordChar(s[n])
  {
    if s != [] && IsWordChar(s[0]) then 1 + WordRun(s[1..]) else 0
  }

  /** What a parameter may hold: a string, a number, a boolean, null or undefined. */
  datatype ParamValue = PStr(s: string) | PNum(n: int) | PBool(b: bool) | PNull | PUndefined

  /** The parameters: a record whose missing names read as `undefined`. */
  type Params = map<string, ParamValue>

  predicate IsNullishParam(v: ParamValue) { v.PNull? || v.PUndefined? }

  /** `String(v)` */
  function ParamString(v: ParamValue): string {
    match v
    case PStr(s) => s
    case PNum(n) => IntToString(n)
    case PBool(b) => if b then "true" else "false"
    case PNull => "null"
    case PUndefined => "undefined"
  }

  /** The text each parameter that is neither null nor undefined stands for. */
  function Texts(params: Params): map<string, string> {
    map k | k in params && !IsNullishParam(params[k]) :: ParamString(params[k])
  }

  /** The text a matched placeholder `{name}` becomes: its parameter's text, or the
      placeholder itself when the parameter is null, undefined or missing. */
  function Substitute(texts: map<string, string>, name: string): string {
    if name in texts then texts[name] else "{" + name + "}"
  }

  /** `template.replace(/\{(\w+)\}/g, …)`: scanning from the left, each match is replaced
      and the scan goes on after it, so replaced text is never scanned again. */
  function Replace(s: string, texts: map<string, string>): string
    decreases |s|
  {
    if s == [] then []
    else
      var n := PlaceholderAt(s);
      if n > 0 then Substitute(texts, s[1..1 + n]) + Replace(s[2 + n..], texts)
      else [s[0]] + Replace(s[1..], texts)
  }

  /** The length of the name when `s` starts with a match of `\{(\w+)\}`, else 0. */
  function PlaceholderAt(s: string): (n: nat)
    ensures n > 0 ==> 2 + n <= |s| && s[0] == '{' && s[1 + n] == '}'
    ensures n > 0 ==> n == WordRun(s[1..]) && forall i :: 1 <= i < 1 + n ==> IsWordChar(s[i])
  {
    if s != [] && s[0] == '{' then
      var w := WordRun(s[1..]);
      if w > 0 && 1 + w < |s| && s[1 + w] == '}' then w else 0
    else 0
  }

  /** `interpolate`: without parameters the template is returned as it is. */
  function Interpolate(template: string, params: Option<Params>): string {
    if params.None? then template else Replace(template, Texts(params.value))
  }

  // ---------------------------------------------------------------- properties of interpolate

  /** No '{' in `s`: nothing in it can start a placeholder. */
  predicate NoBrace(s: string) {
    forall i :: 0 <= i < |s| ==> s[i] != '{'
  }

  /** Text without '{' is copied, and scanning resumes after it. */
  lemma {:induction false} PlainPrefix(a: string, rest: string, texts: map<string, string>)
    requires NoBrace(a)
    ensures Replace(a + rest, texts) == a + Replace(rest, texts)
  {
    if a == [] {
      assert a + rest == rest;
    } else {
      var s := a + rest;
      var tail := a[1..];
      assert s[0] == a[0] && s[1..] == tail + rest;
      assert PlaceholderAt(s) == 0;
      PlainStep(s, texts);
      assert NoBrace(tail);
      PlainPrefix(tail, rest, texts);
      ConsAppend(a, Replace(rest, texts));
    }
  }

  lemma ConsAppend(a: string, b: string)
    requires a != []
    ensures [a[0]] + (a[1..] + b) == a + b
  {
    assert a == [a[0]] + a[1..];
  }

  /** A character that does not start a placeholder is copied. */
  lemma PlainStep(s: string, texts: map<string, string>)
    requires s != [] && PlaceholderAt(s) == 0
    ensures Replace(s, texts) == [s[0]] + Replace(s[1..], texts)
  {
  }

  /** A placeholder is substituted and the scan resumes after its closing brace. */
  lemma MatchStep(s: string, texts: map<string, string>, n: nat)
    requires n > 0 && PlaceholderAt(s) == n
    ensures Replace(s, texts) == Substitute(texts, s[1..1 + n]) + Replace(s[2 + n..], texts)
  {
  }

  /** A template without '{' is returned unchanged. */
  lemma NoPlaceholders(template: string, params: Option<Params>)
    requires NoBrace(template)
    ensures Interpolate(template, params) == template
  {
    if params.Some? {
      PlainPrefix(template, [], Texts(params.value));
      assert template + [] == template;
    }
  }

  /** A placeholder of word characters is replaced by its parameter, and the scan goes
      on after it: the substituted text is not scanned again. */
  lemma PlaceholderReplaced(name: string, rest: string, texts: map<string, string>)
    requires name != [] && forall i :: 0 <= i < |name| ==> IsWordChar(name[i])
    ensures Replace("{" + name + "}" + rest, texts) == Substitute(texts, name) + Replace(rest, texts)
  {
    var s := "{" + name + "}" + rest;
    assert s[1..] == name + ("}" + rest);
    WordRunOf(name, "}" + rest);
    assert PlaceholderAt(s) == |name|;
    assert s[1..1 + |name|] == name;
    assert s[2 + |name|..] == rest;
    MatchStep(s, texts, |name|);
  }

  lemma {:induction false} WordRunOf(name: string, rest: string)
    requires forall i :: 0 <= i < |name| ==> IsWordChar(name[i])
    requires rest == [] || !IsWordChar(rest[0])
    ensures WordRun(name + rest) == |name|
  {
    if name != [] {
      assert (name + rest)[1..] == name[1..] + rest;
      WordRunOf(name[1..], rest);
    } else {
      assert name + rest == rest;
    }
  }

  /** A placeholder holding anything but word characters is left as it is. */
  lemma OtherPlaceholderKept(name: string, rest: string, texts: map<string, string>, k: nat)
    requires NoBrace(name) && k < |name| && !IsWordChar(name[k]) && name[k] != '}'
    requires forall i :: 0 <= i < k ==> IsWordChar(name[i])
    ensures Replace("{" + name + "}" + rest, texts) == "{" + name + "}" + Replace(rest, texts)
  {
    var s := "{" + name + "}" + rest;
    var t := name + "}";
    NoMatchAtBrace(name, rest, k);
    assert s[0] == '{' && s[1..] == t + rest;
    PlainStep(s, texts);
    assert NoBrace(t) by {
      forall i | 0 <= i < |t| ensures t[i] != '{' {
        if i < |name| { assert t[i] == name[i]; }
      }
    }
    PlainPrefix(t, rest, texts);
    Rebraced(name, Replace(rest, texts));
  }

  lemma Rebraced(name: string, r: string)
    ensures "{" + ((name + "}") + r) == "{" + name + "}" + r
  {
  }

  lemma NoMatchAtBrace(name: string, rest: string, k: nat)
    requires k < |name| && !IsWordChar(name[k]) && name[k] != '}'
    requires forall i :: 0 <= i < k ==> IsWordChar(name[i])
    ensures PlaceholderAt("{" + name + "}" + rest) == 0
  {
    var s := "{" + name + "}" + rest;
    assert s[1..] == name[..k] + (name[k..] + "}" + rest);
    WordRunOf(name[..k], name[k..] + "}" + rest);
    assert s[1 + k] == name[k];
  }

  /** With no parameter text, every placeholder stays: the template comes back. */
  lemma {:induction false} NoTextsIdentity(s: string)
    ensures Replace(s, map[]) == s
    decreases |s|
  {
    if s != [] {
      var n := PlaceholderAt(s);
      if n > 0 {
        NoTextsIdentity(s[2 + n..]);
        NoTextsMatch(s, n);
      } else {
        NoTextsIdentity(s[1..]);
        NoTextsPlain(s);
      }
    }
  }

  lemma NoTextsMatch(s: string, n: nat)
    requires n > 0 && PlaceholderAt(s) == n
    requires Replace(s[2 + n..], map[]) == s[2 + n..]
    ensures Replace(s, map[]) == s
  {
    MatchStep(s, map[], n);
    Unmatched(s, n);
  }

  lemma NoTextsPlain(s: string)
    requires s != [] && PlaceholderAt(s) == 0
    requires Replace(s[1..], map[]) == s[1..]
    ensures Replace(s, map[]) == s
  {
    PlainStep(s, map[]);
    assert s == [s[0]] + s[1..];
  }

  /** A placeholder becomes its parameter's `String(...)`, and stays as it is when the
      parameter is null, undefined or missing. */
  lemma SubstituteParam(params: Params, name: string)
    ensures Substitute(Texts(params), name) ==
      if name in params && !IsNullishParam(params[name]) then ParamString(params[name])
      else "{" + name + "}"
  {
  }

  /** When no parameter holds a value, every placeholder stays: the template comes back. */
  lemma NullishParamsIdentity(template: string, params: Params)
    requires forall k :: k in params ==> IsNullishParam(params[k])
    ensures Interpolate(template, Some(params)) == template
  {
    assert Texts(params) == map[];
    NoTextsIdentity(template);
  }

  /** A match put back as it was rebuilds the text it came from. */
  lemma Unmatched(s: string, n: nat)
    requires 2 + n <= |s| && s[0] == '{' && s[1 + n] == '}'
    ensures "{" + s[1..1 + n] + "}" + s[2 + n..] == s
  {
    var name := s[1..1 + n];
    assert s[1..] == name + s[1 + n..];
    assert s[1 + n..] == [s[1 + n]] + s[2 + n..];
    assert s == [s[0]] + s[1..];
  }

  // ---------------------------------------------------------------- t

  /** `(namespace || 'default').toString().trim().toLowerCase()` */
  function Namespace(namespace: string): string {
    Lower(Trim(if namespace == "" then "default" else namespace))
  }

  /** `t(namespace, key, params)` over the translations record. */
  function T(translations: JsValue, namespace: string, key: string, params: Option<Params>): string {
    var value := Get(Get(Get(translations, Namespace(namespace)), key), "value");
    if !value.Str? then key else Interpolate(value.s, params)
  }

  /** A translations record holding one entry: `{[ns]: {[key]: {value}}}`. */
  function SingleEntry(ns: string, key: string, value: JsValue): JsValue {
    Obj([Prop(ns, Obj([Prop(key, Obj([Prop("value", value)]))]))])
  }

  /** A string entry under the folded namespace is interpolated; an entry of any other
      type gives the key itself. */
  lemma TOfEntry(namespace: string, key: string, value: JsValue, params: Option<Params>)
    ensures var tr := SingleEntry(Namespace(namespace), key, value);
      T(tr, namespace, key, params) == if value.Str? then Interpolate(value.s, params) else key
  {
  }

  /** A key or namespace the record does not hold gives the key itself. */
  lemma TOfMissing(ns: string, other: string, namespace: string, key: string, value: JsValue,
                   params: Option<Params>)
    requires ns != Namespace(namespace) || other != key
    ensures T(SingleEntry(ns, other, value), namespace, key, params) == key
  {
  }

  /** The empty namespace is "default". */
  lemma EmptyNamespaceIsDefault(namespace: string)
    requires namespace == ""
    ensures Namespace(namespace) == "default"
  {
    DefaultNormal("default");
  }

  /** A namespace already trimmed and in lower case is used as it is: normalising
      twice is normalising once. */
  lemma NamespaceIdempotent(namespace: string)
    requires Namespace(namespace) != ""
    ensures Namespace(Namespace(namespace)) == Namespace(namespace)
  {
    var n := Namespace(namespace);
    var t := Trim(if namespace == "" then "default" else namespace);
    assert n == Lower(t) && t != [];
    assert Namespace(n) == Lower(Trim(n));
    LowerOfTrimmed(t);
  }

  /** "default" is trimmed and in lower case already. */
  lemma DefaultNormal(d: string)
    requires |d| == 7 && d[0] == 'd' && d[1] == 'e' && d[2] == 'f' && d[3] == 'a'
    requires d[4] == 'u' && d[5] == 'l' && d[6] == 't'
    ensures Lower(Trim(d)) == d
  {
    assert !IsSpace(d[0]) && !IsSpace(d[6]);
    TrimOfTrimmed(d);
    LowerOfLowerCase(d);
  }

  /** Lowering a trimmed, non-empty string leaves it trimmed, and lowering it again
      changes nothing. */
  lemma LowerOfTrimmed(t: string)
    requires t != [] && !IsSpace(t[0]) && !IsSpace(t[|t| - 1])
    ensures Lower(Trim(Lower(t))) == Lower(t)
  {
    var n := Lower(t);
    LowerCharNotSpace(t[0]);
    LowerCharNotSpace(t[|t| - 1]);
    assert !IsSpace(n[0]) && !IsSpace(n[|n| - 1]);
    TrimOfTrimmed(n);
    LowerIdempotent(n);
  }

  lemma LowerCharNotSpace(c: char)
    requires !IsSpace(c)
    ensures !IsSpace(LowerChar(c))
  {
  }

  lemma LowerIdempotent(s: string)
    ensures Lower(Lower(s)) == Lower(s)
  {
  }

  // ---------------------------------------------------------------- the fallback

  /** What `useI18n` gives outside a provider: locale "en" and no translations. */
  datatype I18nContext = I18nContext(locale: string, translations: JsValue)

  function UseI18n(ctx: Option<I18nContext>): I18nContext {
    if ctx.Some? then ctx.value else I18nContext("en", Obj([]))
  }

  /** The fallback `t`: the key, whatever the namespace and parameters. */
  function FallbackT(namespace: string, key: string, params: Option<Params>): string {
    key
  }

  /** The fallback `t` is the provider's `t` over the fallback's empty translations. */
  lemma FallbackIsEmptyTranslations(namespace: string, key: string, params: Option<Params>)
    ensures FallbackT(namespace, key, params) == T(UseI18n(None).translations, namespace, key, params)
    ensures UseI18n(None).locale == "en"
  {
  }
}
