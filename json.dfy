/**
 * The values `json.loads` produces, and the two Python behaviours of them
 * the pipeline depends on: truthiness (`if llm_data:`) and the type name
 * that appears in the error raised when a non-dictionary is asked for its
 * `.items()`.
 */
module Json {

  /**
   * A decoded JSON document. Objects are maps: the order of their keys and
   * duplicate keys (the last one wins in `json.loads`) are not modelled.
   */
  datatype Json =
    | JNull
    | JBool(b: bool)
    | JInt(i: int)
    | JFloat(r: real)
    | JStr(s: string)
    | JArr(items: seq<Json>)
    | JObj(fields: map<string, Json>)

  /** Python truthiness of the decoded value. */
  predicate Truthy(v: Json) {
    match v
    case JNull => false
    case JBool(b) => b
    case JInt(i) => i != 0
    case JFloat(r) => r != 0.0
    case JStr(s) => s != ""
    case JArr(items) => items != []
    case JObj(fields) => fields != map[]
  }

  /** The Python type name of the decoded value. */
  function TypeName(v: Json): string {
    match v
    case JNull => "NoneType"
    case JBool(_) => "bool"
    case JInt(_) => "int"
    case JFloat(_) => "float"
    case JStr(_) => "str"
    case JArr(_) => "list"
    case JObj(_) => "dict"
  }

  /** The message of the `AttributeError` raised by `v.items()` on a value that is not a dictionary. */
  function NoItemsMessage(v: Json): string {
    "'" + TypeName(v) + "' object has no attribute 'items'"
  }
}
