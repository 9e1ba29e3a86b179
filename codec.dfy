/** JSON text columns. The core only ever stores what `json.dumps`
    produced or nothing at all, and reads them back through `json.loads`
    with a fallback; the text itself is not modelled, only which of the
    three cases a column is in. */
module Codec {

  /** The contents of a JSON text column: NULL (`Absent`), the encoding
      of a value, or text that does not decode. */
  datatype Stored<T> = Absent | Encoded(value: T) | Malformed(raw: string)

  /** A JSON scalar stored in a metadata object. */
  datatype MetaValue = MetaBool(b: bool) | MetaText(text: string) | MetaNumber(x: real)

  type Meta = map<string, MetaValue>

  /** `json.dumps(v)` */
  function Encode<T>(v: T): Stored<T>
  {
    Encoded(v)
  }

  /** `json.loads(text)`, answering `fallback` on the TypeError (NULL
      column) and JSONDecodeError cases. */
  function DecodeOr<T>(s: Stored<T>, fallback: T): (v: T)
    ensures s.Encoded? ==> v == s.value
    ensures !s.Encoded? ==> v == fallback
  {
    match s
    case Encoded(x) => x
    case _ => fallback
  }
}
