/**
 * `read_json` / `write_json` of utils.py over an abstract document store: the JSON text
 * itself is not modelled, only whether a readable document is there and what it holds.
 */
module Persist {

  /** What `read_json` finds at a path: no file, a file that does not parse, or a value. */
  datatype Doc<T> = Missing | Corrupt | Parsed(value: T)

  /** `read_json(path, default)`: the parsed value, or `default` whenever open or parse fails. */
  function ReadJson<T>(doc: Doc<T>, default: T): (r: T)
    ensures doc.Parsed? ==> r == doc.value
    ensures !doc.Parsed? ==> r == default
  {
    match doc
    case Parsed(v) => v
    case _ => default
  }

  /** `write_json(path, value)`: the path afterwards holds the value. */
  function WriteJson<T>(value: T): (doc: Doc<T>)
    ensures doc.Parsed? && doc.value == value
  {
    Parsed(value)
  }

  /** Reading back what was just written yields the written value, whatever the default. */
  lemma WriteThenRead<T>(value: T, default: T)
    ensures ReadJson(WriteJson(value), default) == value
  {
  }
}
