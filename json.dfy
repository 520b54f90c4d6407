/**
 * Decoded JSON values. Only their shape matters to the model: the client
 * stores them in the parameter map and prints them, it never inspects them.
 */
module JsonValues {

  datatype Json =
    | Null
    | Bool(b: bool)
    | Number(literal: string)  // kept as its text; integer and float decoding are not modelled
    | Str(s: string)
    | Array(elements: seq<Json>)
    | Object(members: map<string, Json>)

  /**
   * What `json.loads` does with one text: it returns a value, or raises a
   * `JSONDecodeError`, some other `ValueError` (such as the limit on the
   * digits of an integer), or an exception that is not a `ValueError` (such
   * as a `RecursionError` on deeply nested arrays).
   */
  datatype Loaded =
    | Decoded(value: Json)
    | DecodeError
    | OtherValueError(message: string)
    | OtherException(message: string)
}
