/** The values expressions evaluate to. */
module EngineValues {
  import opened Base
  import opened Numbers

  /** Temporal kinds are not part of this model. A byte string stands as the list of
      its bytes; a path is known by its value key. */
  datatype Value =
    | Null
    | Map(fields: map<string, Value>)
    | NodeRef(node: Id)
    | EdgeRef(edge: Id)
    | List(items: seq<Value>)
    | PathRef(key: string)
    | Str(s: string)
    | Bool(b: bool)
    | Num(x: Number)
}
