/** The signal database (a DBC file loaded by cantools) seen from the core:
    a partial decoder from a frame identifier and payload to named signal
    values. Loading and bit-level decoding belong to cantools and are not
    part of this model; only the three outcomes the callers distinguish are. */
module SignalDb {
  import opened Common

  /** A decoded physical value. With `decode_choices=False` cantools returns
      numbers; `NonNumeric` stands for any value Python's `float()` rejects. */
  datatype SignalValue = Num(x: real) | NonNumeric(text: string)

  /** Python's `float(v)` on a decoded value. */
  function AsFloat(v: SignalValue): (r: Option<real>)
    ensures r.Some? <==> v.Num?
    ensures v.Num? ==> r.value == v.x
  {
    match v
    case Num(x) => Some(x)
    case NonNumeric(_) => None
  }

  /** What `db.get_message_by_frame_id(id).decode(data, ...)` does:
      raises KeyError (no message with that identifier), raises any other
      error, or returns the signal dictionary. */
  datatype DecodeOutcome =
    | UnknownFrame
    | DecodeFailed
    | Decoded(signals: map<string, SignalValue>)

  /** A loaded database: frame identifier and payload to decode outcome. */
  type Decoder = (nat, seq<byte>) -> DecodeOutcome

  /** The pair of parallel lists `([timestamps], [values])` kept per signal. */
  datatype Series<V> = Series(times: seq<real>, values: seq<V>)

  function EmptySeries<V>(): Series<V> {
    Series([], [])
  }
}
