/** The JSON values the handlers build as Python dicts and lists and send to
    the search engine as request bodies. */
module JsonDoc {
  import opened Wrappers

  datatype Json =
    | JNull
    | JBool(b: bool)
    | JInt(n: int)
    | JStr(s: string)
    | JArr(items: seq<Json>)
    | JObj(fields: map<string, Json>)

  /** The value reached by following `path` through nested objects, as
      `j[path[0]][path[1]]...` would find it; None when a key is missing or
      a step is not an object. */
  function Lookup(j: Json, path: seq<string>): Option<Json>
    decreases |path|
  {
    if |path| == 0 then Some(j)
    else match j
      case JObj(m) => if path[0] in m then Lookup(m[path[0]], path[1..]) else None
      case _ => None
  }

  /** The keys of the object reached by `path`, or none. */
  function KeysAt(j: Json, path: seq<string>): set<string> {
    match Lookup(j, path)
    case Some(JObj(m)) => m.Keys
    case _ => {}
  }
}
