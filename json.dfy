/** Parsed JSON values, as both the server (Python `json`) and the widget
    (JavaScript `JSON`) see them after decoding. */
module Json {
  import opened Strings

  /** Numbers are kept as integers: the model only ever compares them with
      strings or passes them through unchanged. */
  datatype Json =
    | JNull
    | JBool(b: bool)
    | JNum(n: int)
    | JStr(s: string)
    | JArr(items: seq<Json>)
    | JObj(fields: map<string, Json>)

  /** A one-field JSON object `{key: value}`. */
  function Single(key: string, value: Json): (r: Json)
    ensures r.JObj? && r.fields.Keys == {key} && r.fields[key] == value
  {
    JObj(map[key := value])
  }

  /** The string stored under `key` in an object, if there is one. Python's
      `v[key]` raises for anything but an object holding the key; JavaScript's
      `v.key.replace(...)` raises for anything but a string there. */
  function StringField(v: Json, key: string): (r: Option<string>)
    ensures r.Some? <==> v.JObj? && key in v.fields && v.fields[key].JStr?
    ensures r.Some? ==> v.fields[key] == JStr(r.value)
  {
    if v.JObj? && key in v.fields && v.fields[key].JStr? then Some(v.fields[key].s) else None
  }
}
