/** JSON trees. A number is its literal text; an object's keys are unordered and distinct. */
module Json {
  datatype Value =
    | Null
    | Bool(b: bool)
    | Number(literal: string)
    | Str(s: string)
    | Array(items: seq<Value>)
    | Object(fields: map<string, Value>)
}
