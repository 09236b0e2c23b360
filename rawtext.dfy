/** Minecraft rawtext: a text field of a dialogue file is either a plain string or an object
    `{ rawtext: [...] }` whose components may name a translation key and its `with` values.
    The helpers recognise rawtext, resolve it against a `.lang` table, build it from a key and
    read the key back. */
module Rawtexts {
  import opened Wrappers
  import opened LangFiles

  /** One rawtext component: an object with a `translate` key or an object without one;
      either may carry `with` values. */
  datatype RawtextComponent =
    | Translate(translate: string, with: Option<seq<string>>)
    | OtherComponent(with: Option<seq<string>>)

  /** A parsed JSON value, as a dialogue file holds it; numbers are integers here. */
  datatype Json =
    | JNull
    | JBool(boolean: bool)
    | JNumber(number: int)
    | JString(str: string)
    | JArray(elements: seq<Json>)
    | JObject(fields: map<string, Json>)

  /** JavaScript truthiness: `null`, `false`, `0` and '' are falsy; arrays and objects are
      truthy. */
  predicate Truthy(j: Json) {
    match j
    case JNull => false
    case JBool(b) => b
    case JNumber(n) => n != 0
    case JString(s) => s != []
    case _ => true
  }

  /** `typeof`: `null` and arrays report "object", like objects. */
  function TypeOf(j: Json): string {
    match j
    case JBool(_) => "boolean"
    case JNumber(_) => "number"
    case JString(_) => "string"
    case _ => "object"
  }

  /** The `in` operator on an array or object: an object's own fields, an array's `length`. */
  predicate HasProperty(j: Json, name: string)
    requires j.JArray? || j.JObject?
  {
    if j.JObject? then name in j.fields else name == "length"
  }

  /** Property access `j[name]`, with `None` for `undefined`. */
  function Property(j: Json, name: string): Option<Json> {
    if j.JObject? && name in j.fields then Some(j.fields[name])
    else if j.JArray? && name == "length" then Some(JNumber(|j.elements|))
    else None
  }

  /** `Array.isArray` of a value that may be `undefined`. */
  predicate IsArray(value: Option<Json>) {
    value.Some? && value.value.JArray?
  }

  /** `isRawtext`: the value is truthy, its `typeof` is "object", it has a `rawtext` property
      and that property is an array; this holds exactly for an object whose `rawtext` field
      is an array. `None` stands for `undefined`. */
  predicate IsRawtext(value: Option<Json>): (b: bool)
    ensures b <==> value.Some? && value.value.JObject? && "rawtext" in value.value.fields
                   && value.value.fields["rawtext"].JArray?
  {
    && value.Some?
    && Truthy(value.value)
    && TypeOf(value.value) == "object"
    && HasProperty(value.value, "rawtext")
    && IsArray(Property(value.value, "rawtext"))
  }

  /** A text field as the model's scenes hold it: absent (`undefined` or `null`), a string,
      rawtext (an object whose `rawtext` field is an array), or anything else. */
  datatype TextValue =
    | Missing
    | Text(text: string)
    | Rawtext(rawtext: seq<RawtextComponent>)
    | OtherValue

  /** A `with` field: an array of strings; anything else is taken as absent. */
  function WithValues(j: Json): Option<seq<string>> {
    if j.JArray? && forall e <- j.elements :: e.JString? then
      Some(seq(|j.elements|, i requires 0 <= i < |j.elements| => j.elements[i].str))
    else None
  }

  /** One element of a rawtext array: an object with a string `translate` field is a
      translation component, anything else a component without a key; either keeps its
      `with` field. */
  function ToComponent(j: Json): RawtextComponent {
    var with := if j.JObject? && "with" in j.fields then WithValues(j.fields["with"]) else None;
    if j.JObject? && "translate" in j.fields && j.fields["translate"].JString? then
      Translate(j.fields["translate"].str, with)
    else OtherComponent(with)
  }

  /** The elements of a rawtext array, as components. */
  function ToComponents(elements: seq<Json>): (components: seq<RawtextComponent>)
    ensures |components| == |elements|
    ensures forall i :: 0 <= i < |elements| ==> components[i] == ToComponent(elements[i])
  {
    seq(|elements|, i requires 0 <= i < |elements| => ToComponent(elements[i]))
  }

  /** The kind of a JSON text field, in the order `resolveTextField` tests it: `undefined` and
      `null` are missing, a string is text, a value that passes `isRawtext` is rawtext, and
      everything else is another value. */
  function ToTextValue(value: Option<Json>): (t: TextValue)
    ensures t.Missing? <==> value.None? || value.value.JNull?
    ensures t.Text? <==> value.Some? && value.value.JString?
    ensures t.Text? ==> t.text == value.value.str
    ensures t.Rawtext? <==> IsRawtext(value)
    ensures t.Rawtext? ==> t.rawtext == ToComponents(value.value.fields["rawtext"].elements)
  {
    if value.None? || value.value.JNull? then Missing
    else if value.value.JString? then Text(value.value.str)
    else if IsRawtext(value) then Rawtext(ToComponents(value.value.fields["rawtext"].elements))
    else OtherValue
  }

  /** `resolveRawtext`: an empty component list resolves to ''; otherwise only the first
      component counts, a translation component resolving through the `.lang` table and any
      other component to an error marker. */
  function ResolveRawtext(rawtext: seq<RawtextComponent>, langData: Option<LangData>): (text: string)
    ensures rawtext == [] ==> text == []
    ensures rawtext != [] && rawtext[0].Translate? ==> text == Resolution(rawtext[0].translate, langData, rawtext[0].with)
    ensures rawtext != [] && rawtext[0].OtherComponent? ==> text == "[INVALID RAWTEXT]"
  {
    if rawtext == [] then []
    else
      match rawtext[0]
      case Translate(translate, with) => Resolution(translate, langData, with)
      case OtherComponent(_) => "[INVALID RAWTEXT]"
  }

  /** `createRawtext`: one translation component for the key, carrying `with` only when the
      values are present and non-empty. */
  function CreateRawtext(translationKey: string, withValues: Option<seq<string>>): (rawtext: seq<RawtextComponent>)
    ensures |rawtext| == 1 && rawtext[0].Translate? && rawtext[0].translate == translationKey
    ensures rawtext[0].with.Some? <==> withValues.Some? && withValues.value != []
    ensures rawtext[0].with.Some? ==> rawtext[0].with == withValues
  {
    var with := if withValues.Some? && |withValues.value| > 0 then withValues else None;
    [Translate(translationKey, with)]
  }

  /** `getTranslationKey`: the first component's non-empty `translate` key; null for an
      empty list, a component without a key, or an empty key. */
  function GetTranslationKey(rawtext: seq<RawtextComponent>): (key: Option<string>)
    ensures key.Some? <==> rawtext != [] && rawtext[0].Translate? && rawtext[0].translate != []
    ensures key.Some? ==> key.value == rawtext[0].translate
  {
    if rawtext == [] then None
    else
      match rawtext[0]
      case Translate(translate, _) => if translate != [] then Some(translate) else None
      case OtherComponent(_) => None
  }

  /** `resolveTextField`: an absent field or '' becomes '', a string stays itself, rawtext is
      resolved, and any other value becomes ''. */
  function ResolveTextField(value: TextValue, langData: Option<LangData>): (text: string)
    ensures value.Missing? || value.OtherValue? ==> text == []
    ensures value.Text? ==> text == value.text
    ensures value.Rawtext? ==> text == ResolveRawtext(value.rawtext, langData)
  {
    match value
    case Missing => []
    case Text(s) => if s == [] then [] else s
    case Rawtext(components) => ResolveRawtext(components, langData)
    case OtherValue => []
  }

  /** `resolveTextField` on the JSON value itself, test by test: a falsy value gives '', a
      string stays itself, a value `isRawtext` accepts is resolved, and any other value gives
      ''. Classifying the value first and resolving its kind gives the same text. */
  function ResolveJsonField(value: Option<Json>, langData: Option<LangData>): (text: string)
    ensures text == ResolveTextField(ToTextValue(value), langData)
  {
    if value.None? || !Truthy(value.value) then []
    else if TypeOf(value.value) == "string" then value.value.str
    else if IsRawtext(value) then ResolveRawtext(ToComponents(value.value.fields["rawtext"].elements), langData)
    else []
  }

  /** A list of strings as a JSON array. */
  function StringsJson(values: seq<string>): Json {
    JArray(seq(|values|, i requires 0 <= i < |values| => JString(values[i])))
  }

  /** A component as a JSON object: its `translate` key, if any, and its `with` array, if
      any. */
  function ComponentJson(c: RawtextComponent): Json {
    var with: map<string, Json> := if c.with.Some? then map["with" := StringsJson(c.with.value)] else map[];
    match c
    case Translate(key, _) => JObject(with["translate" := JString(key)])
    case OtherComponent(_) => JObject(with)
  }

  /** A text field as JSON: nothing when missing, a string, an object holding the `rawtext`
      array, or (for another value) a number. */
  function TextJson(t: TextValue): Option<Json> {
    match t
    case Missing => None
    case Text(s) => Some(JString(s))
    case Rawtext(components) =>
      Some(JObject(map["rawtext" := JArray(seq(|components|, i requires 0 <= i < |components| => ComponentJson(components[i])))]))
    case OtherValue => Some(JNumber(1))
  }

  /** A string array reads back as its strings. */
  lemma StringsRoundTrip(values: seq<string>)
    ensures WithValues(StringsJson(values)) == Some(values)
  {
    var j := StringsJson(values);
    assert forall e <- j.elements :: e.JString?;
    assert seq(|j.elements|, i requires 0 <= i < |j.elements| => j.elements[i].str) == values;
  }

  /** A component written as JSON reads back as itself. */
  lemma ComponentRoundTrip(c: RawtextComponent)
    ensures ToComponent(ComponentJson(c)) == c
  {
    if c.with.Some? {
      StringsRoundTrip(c.with.value);
    }
  }

  /** Every text value written as JSON is classified back as itself. */
  lemma TextValueRoundTrip(t: TextValue)
    ensures ToTextValue(TextJson(t)) == t
  {
    if t.Rawtext? {
      var elements := seq(|t.rawtext|, i requires 0 <= i < |t.rawtext| => ComponentJson(t.rawtext[i]));
      forall i | 0 <= i < |t.rawtext|
        ensures ToComponent(elements[i]) == t.rawtext[i]
      {
        ComponentRoundTrip(t.rawtext[i]);
      }
      assert ToComponents(elements) == t.rawtext;
    }
  }

  /** Reading the key back from created rawtext gives the key, when it is not empty. */
  lemma TranslationKeyRoundTrip(translationKey: string, withValues: Option<seq<string>>)
    requires translationKey != []
    ensures GetTranslationKey(CreateRawtext(translationKey, withValues)) == Some(translationKey)
  {
  }

  /** Created rawtext resolves exactly as the key with its values does: leaving out an empty
      `with` list changes nothing. */
  lemma CreatedRawtextResolves(translationKey: string, withValues: Option<seq<string>>, langData: Option<LangData>)
    ensures ResolveRawtext(CreateRawtext(translationKey, withValues), langData) == Resolution(translationKey, langData, withValues)
  {
    if withValues.Some? && withValues.value == [] {
      ResolutionEmptyWith(translationKey, langData);
    }
  }
}
