/**
 * JSON values as the generator builds them (JsonCpp's `Json::Value` on the
 * C++ side, plain objects and arrays on the JavaScript side). Objects are
 * finite maps: every consumer in the model reads them by key.
 */
module Json {
  datatype Json =
    | JNull
    | JBool(b: bool)
    | JInt(i: int)
    | JStr(s: string)
    | JArr(items: seq<Json>)
    | JObj(fields: map<string, Json>)

  /**
   * `kv[key].asString()` on an object: the string stored under `key`, and
   * "" when the key is absent or holds null (JsonCpp converts null to "").
   */
  function StrAt(kv: map<string, Json>, key: string): (r: string)
    ensures key in kv && kv[key].JStr? ==> r == kv[key].s
    ensures key !in kv ==> r == []
  {
    if key in kv && kv[key].JStr? then kv[key].s else []
  }

  /** An object with one more string member. */
  function PutStr(kv: map<string, Json>, key: string, value: string): (r: map<string, Json>)
    ensures StrAt(r, key) == value
    ensures r.Keys == kv.Keys + {key}
    ensures forall k :: k in kv && k != key ==> k in r && r[k] == kv[k]
  {
    kv[key := JStr(value)]
  }
}
