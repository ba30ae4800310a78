/**
 * The decoded JSON object a bot reads its lead fields from: string keys to
 * scalar values, and Python's `dict.get` with a default. How a payload is
 * decoded is not modelled; every bot receives the decoder as a parameter.
 */
module Json {
  import opened Sheet

  /** A decoded JSON object with scalar values. */
  type Record = map<string, Cell>

  /** The extractors' "unknown" marker, also the default of every missing key. */
  const NA: Cell := Str("N/A")

  /** `record.get(key, default)`. */
  function Get(rec: Record, key: string, default: Cell): Cell {
    if key in rec then rec[key] else default
  }
}
