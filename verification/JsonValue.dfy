/** JSON values.  An object is the map of its members; its iteration order is `Ordering.SortedKeys`. */
module JsonValue {
  import opened Wrappers

  datatype Json =
    | Null
    | Bool(b: bool)
    | Num(n: real)
    | Str(s: string)
    | Arr(items: seq<Json>)
    | Obj(members: map<string, Json>)
  {
    /** Member lookup: absent on a non-object as well as on a missing key. */
    function Get(key: string): Option<Json> {
      if Obj? && key in members then Some(members[key]) else None
    }

    /** Member lookup that is present only when the member is a string. */
    function GetStr(key: string): Option<string> {
      match Get(key)
      case Some(Str(s)) => Some(s)
      case _ => None
    }
  }
}
