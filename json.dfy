/** Decoded JSON values, as `json.load` hands them to the converter and as `json.dump` writes them. */
module Json {
  import opened Wrappers
  import PyStr

  datatype Json =
    | JNull
    | JBool(b: bool)
    | JInt(i: int)
    | JReal(r: real)
    | JStr(s: string)
    | JArr(items: seq<Json>)
    | JObj(fields: seq<(string, Json)>)

  /** The keys of an object, in insertion order. */
  function Keys(fields: seq<(string, Json)>): (ks: seq<string>)
    ensures |ks| == |fields|
    ensures forall i :: 0 <= i < |fields| ==> ks[i] == fields[i].0
  {
    seq(|fields|, i requires 0 <= i < |fields| => fields[i].0)
  }

  /** Whether `key` is a key of `j` (false for anything that is not an object). */
  predicate HasKey(j: Json, key: string) {
    j.JObj? && key in Keys(j.fields)
  }

  /** Python's `key in value` where `value` came from `json.loads`: key membership for an object,
      element membership for a list (only an equal string is equal to a string), substring search for a
      string, and a `TypeError` for a number, a boolean or `None`. */
  function PyIn(key: string, j: Json): (r: Result<bool, string>)
    ensures r.Failure? <==> !(j.JObj? || j.JArr? || j.JStr?)
    ensures j.JObj? ==> r == Success(HasKey(j, key))
  {
    match j
    case JObj(fields) => Success(key in Keys(fields))
    case JArr(items) => Success(JStr(key) in items)
    case JStr(s) => Success(PyStr.IsSubstring(key, s))
    case _ => Failure("TypeError")
  }
}
