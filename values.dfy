/**
 * The values the client's option mapping holds, and the wrappers the
 * rest of the model uses for absent values and failed conversions.
 */
module Values {

  datatype Option<+T> = None | Some(value: T)

  /** A value of the option mapping: text, an integer, a boolean or a list of texts. */
  datatype Value = VStr(s: string) | VInt(n: int) | VBool(b: bool) | VList(items: seq<string>)

  /** The options dictionary: option name to value. */
  type Options = map<string, Value>

  /** Raised by `int()` on text that is not a decimal literal. */
  datatype ConversionError = InvalidLiteral(text: string)

  datatype Result<+T> = Ok(value: T) | Err(error: ConversionError)

  /** The value stored under `key`, if any. */
  function Lookup(m: Options, key: string): Option<Value>
  {
    if key in m then Some(m[key]) else None
  }
}
