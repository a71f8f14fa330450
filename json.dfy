/** The JavaScript values that cross the API boundary: what `JSON.parse` produces, plus
    `undefined` for a missing property. Objects keep their properties in order; reading a
    property yields the last one of that name, as `JSON.parse` keeps the last duplicate. */
module Json {
  import opened Text

  datatype JsValue =
    | Undefined
    | Null
    | Bool(b: bool)
    | Num(n: int)
    | Str(s: string)
    | Arr(items: seq<JsValue>)
    | Obj(props: seq<Prop>)

  datatype Prop = Prop(key: string, value: JsValue)

  /** `!!v` */
  predicate Truthy(v: JsValue) {
    match v
    case Undefined => false
    case Null => false
    case Bool(b) => b
    case Num(n) => n != 0
    case Str(s) => s != ""
    case Arr(_) => true
    case Obj(_) => true
  }

  /** `typeof v === 'object'` */
  predicate IsObjectType(v: JsValue) { v.Null? || v.Arr? || v.Obj? }

  /** `v === null || v === undefined` */
  predicate IsNullish(v: JsValue) { v.Undefined? || v.Null? }

  /** The value of the last property named `key`, or `undefined`. */
  function LastValue(props: seq<Prop>, key: string): (r: JsValue)
    ensures (forall i :: 0 <= i < |props| ==> props[i].key != key) ==> r == Undefined
    ensures r != Undefined ==> exists i :: 0 <= i < |props| && props[i] == Prop(key, r)
  {
    if props == [] then Undefined
    else
      var last := props[|props| - 1];
      if last.key == key then last.value
      else
        var r := LastValue(props[..|props| - 1], key);
        assert forall i :: 0 <= i < |props| - 1 ==> props[..|props| - 1][i] == props[i];
        r
  }

  /** `v[key]` on a value that may be an object; anything else has no own data property. */
  function Get(v: JsValue, key: string): JsValue {
    if v.Obj? then LastValue(v.props, key) else Undefined
  }

  /** `v ?? d` */
  function Coalesce(v: JsValue, d: JsValue): JsValue {
    if IsNullish(v) then d else v
  }

  /** `String(v)`: array elements that are nullish print as nothing. */
  function ToStr(v: JsValue): string {
    match v
    case Undefined => "undefined"
    case Null => "null"
    case Bool(b) => if b then "true" else "false"
    case Num(n) => IntToString(n)
    case Str(s) => s
    case Arr(items) =>
      Join(seq(|items|, i requires 0 <= i < |items| =>
        if IsNullish(items[i]) then "" else ToStr(items[i])), ",")
    case Obj(_) => "[object Object]"
  }

  /** The properties `JSON.stringify` writes: those whose value is not `undefined`. */
  function Defined(props: seq<Prop>): (r: seq<Prop>)
    ensures forall p :: p in r ==> p in props && !p.value.Undefined?
    ensures forall p :: p in props && !p.value.Undefined? ==> p in r
  {
    if props == [] then []
    else (if props[0].value.Undefined? then [] else [props[0]]) + Defined(props[1..])
  }

  /** The value `JSON.stringify(v)` writes out, read back as a value: properties holding
      `undefined` are left out and `undefined` array elements become `null`. */
  function Serialized(v: JsValue): JsValue {
    match v
    case Obj(props) =>
      var d := Defined(props);
      Obj(seq(|d|, i requires 0 <= i < |d| => Prop(d[i].key, Serialized(d[i].value))))
    case Arr(items) =>
      Arr(seq(|items|, i requires 0 <= i < |items| =>
        if items[i].Undefined? then Null else Serialized(items[i])))
    case _ => v
  }

  /** Nothing is dropped from properties that all hold a value. */
  lemma {:induction false} DefinedOfDefined(props: seq<Prop>)
    requires forall i :: 0 <= i < |props| ==> !props[i].value.Undefined?
    ensures Defined(props) == props
  {
    if props != [] {
      DefinedOfDefined(props[1..]);
      assert props == [props[0]] + props[1..];
    }
  }

  /** An object whose properties hold strings or `undefined` is written as the object
      of its defined properties. */
  lemma SerializedFlat(props: seq<Prop>)
    requires forall i :: 0 <= i < |props| ==> props[i].value.Str? || props[i].value.Undefined?
    ensures Serialized(Obj(props)) == Obj(Defined(props))
  {
    var d := Defined(props);
    forall i | 0 <= i < |d| ensures Prop(d[i].key, Serialized(d[i].value)) == d[i] {
      assert d[i] in props;
      assert d[i].value.Str?;
    }
    assert seq(|d|, i requires 0 <= i < |d| => Prop(d[i].key, Serialized(d[i].value))) == d;
  }

  /** The property read is the last one carrying the name. */
  lemma {:induction false} LastValueAt(props: seq<Prop>, key: string, i: nat)
    requires i < |props| && props[i].key == key
    requires forall j :: i < j < |props| ==> props[j].key != key
    ensures LastValue(props, key) == props[i].value
  {
    if i < |props| - 1 {
      var front := props[..|props| - 1];
      LastValueAt(front, key, i);
    }
  }

  /** A name whose every property holds `undefined` is not written at all. */
  lemma UndefinedNotWritten(props: seq<Prop>, key: string)
    requires forall i :: 0 <= i < |props| && props[i].key == key ==> props[i].value.Undefined?
    requires forall i :: 0 <= i < |props| ==> props[i].value.Str? || props[i].value.Undefined?
    ensures Get(Serialized(Obj(props)), key) == Undefined
  {
    SerializedFlat(props);
    var d := Defined(props);
    forall i | 0 <= i < |d| ensures d[i].key != key {
      assert d[i] in props;
    }
  }

  /** When every property named `key` holds `v`, and one does, reading `key` gives `v`. */
  lemma {:induction false} LastValueOfUniform(props: seq<Prop>, key: string, v: JsValue)
    requires Prop(key, v) in props
    requires forall j :: 0 <= j < |props| && props[j].key == key ==> props[j].value == v
    ensures LastValue(props, key) == v
  {
    var last := props[|props| - 1];
    if last.key != key {
      var front := props[..|props| - 1];
      assert props == front + [last];
      assert Prop(key, v) in front;
      LastValueOfUniform(front, key, v);
    }
  }

  /** In an object of string-or-`undefined` properties where `key` names only property
      `i`, what is written under `key` is that property's value, `undefined` meaning not
      written at all. */
  lemma SerializedFlatAt(props: seq<Prop>, key: string, i: nat)
    requires forall j :: 0 <= j < |props| ==> props[j].value.Str? || props[j].value.Undefined?
    requires i < |props| && props[i].key == key
    requires forall j :: 0 <= j < |props| && j != i ==> props[j].key != key
    ensures Get(Serialized(Obj(props)), key) == props[i].value
  {
    SerializedFlat(props);
    var d := Defined(props);
    if props[i].value.Undefined? {
      forall k | 0 <= k < |d| ensures d[k].key != key {
        assert d[k] in props;
      }
    } else {
      assert props[i] in d;
      forall k | 0 <= k < |d| && d[k].key == key ensures d[k].value == props[i].value {
        assert d[k] in props;
      }
      LastValueOfUniform(d, key, props[i].value);
    }
  }

  /** A name no property carries is not written. */
  lemma SerializedFlatAbsent(props: seq<Prop>, key: string)
    requires forall j :: 0 <= j < |props| ==> props[j].value.Str? || props[j].value.Undefined?
    requires forall j :: 0 <= j < |props| ==> props[j].key != key
    ensures Get(Serialized(Obj(props)), key) == Undefined
  {
    SerializedFlat(props);
    var d := Defined(props);
    forall k | 0 <= k < |d| ensures d[k].key != key {
      assert d[k] in props;
    }
  }

  /** A property's value written to the last place wins, whatever came before. */
  lemma LastWriteWins(props: seq<Prop>, key: string, value: JsValue)
    ensures Get(Obj(props + [Prop(key, value)]), key) == value
  {
  }
}
