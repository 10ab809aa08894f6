/** The values `encoding/json` decodes into `interface{}`: strings, numbers,
    booleans, null, arrays (`[]interface{}`) and objects
    (`map[string]interface{}`). */
module JsonData {

  /** A decoded JSON value. Numbers are never inspected by the model, so
      their float64 representation is not modelled. */
  datatype Json =
    | Str(s: string)
    | Num(n: real)
    | Bool(b: bool)
    | Null
    | Arr(items: seq<Json>)
    | Obj(fields: map<string, Json>)

  /** Success or failure of decoding a log entry as a JSON object. */
  datatype Option<T> = None | Some(value: T)
}
