/** Parsed JSON values, and what is computed from bytes. */
module Json {
  import opened Results
  import opened StateTree

  datatype Json =
    | JNull
    | JBool(flag: bool)
    | JInteger(number: int)
    | JFloat(fraction: real)
    | JString(text: string)
    | JArray(items: seq<Json>)
    | JObject(fields: map<string, Json>)

  /** How bytes are hashed and parsed. */
  datatype Codec = Codec(hash: Bytes -> string, parse: Bytes -> Option<Json>)

  /** `value.get(key)` of a mapping: a missing key reads as null. */
  function Get(fields: map<string, Json>, key: string): Json {
    if key in fields then fields[key] else JNull
  }

  predicate LowerHex(c: char) {
    '0' <= c <= '9' || 'a' <= c <= 'f'
  }

  /** An algorithm-qualified lowercase SHA-256 value. */
  predicate IsSha256(s: string) {
    && |s| == 71
    && s[..7] == "sha256:"
    && forall i :: 7 <= i < |s| ==> LowerHex(s[i])
  }
}
