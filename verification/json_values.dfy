/** JSON documents as Python's `json.load` hands them to the catalog script:
    `None`, `bool`, `int`, `float`, `str`, `list` and `dict`. */
module JsonValues {

  datatype Json =
    | JNull
    | JBool(b: bool)
    | JInt(i: int)
    | JFloat(f: real)
    | JString(s: string)
    | JArray(items: seq<Json>)
    | JObject(fields: map<string, Json>)

  /** `isinstance(v, str)` */
  predicate IsStr(v: Json)
  {
    v.JString?
  }

  /** `v is None or isinstance(v, str)` */
  predicate IsStrOrNone(v: Json)
  {
    v.JNull? || v.JString?
  }

  /** Python can put `v` in a `set`: lists and dicts are unhashable. */
  predicate Hashable(v: Json)
  {
    !v.JArray? && !v.JObject?
  }

  /** The groups of hashable values whose members `sorted` can compare with
      each other: `bool`, `int` and `float` compare as numbers, `str` with
      `str`, and `None` with nothing. */
  datatype OrderGroup = NoneGroup | NumberGroup | StrGroup

  function GroupOf(v: Json): OrderGroup
    requires Hashable(v)
  {
    match v
    case JNull => NoneGroup
    case JString(_) => StrGroup
    case _ => NumberGroup
  }

  /** `d.get(key, default)` */
  function Get(m: map<string, Json>, key: string, default: Json): (v: Json)
    ensures key in m ==> v == m[key]
    ensures key !in m ==> v == default
  {
    if key in m then m[key] else default
  }
}
