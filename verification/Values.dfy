/** Source records as the validation and mapping engines read them. */
module Values {
  /** Field values are atoms compared by equality. A value that is not text comes with the
      text it prints as and with its truth value, since a zero counts as missing in places. */
  datatype Value = Null | Text(text: string) | Other(text: string, truthy: bool)

  type Record = map<string, Value>

  predicate Blank(v: Value) {
    v == Null || v == Text("")
  }

  predicate Truthy(v: Value) {
    match v
    case Null => false
    case Text(text) => text != ""
    case Other(_, truthy) => truthy
  }

  /** A missing field reads as null. */
  function Get(r: Record, field: string): Value {
    if field in r then r[field] else Null
  }
}
