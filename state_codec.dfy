/**
 * The opaque state blob the trader hands back to the simulator each call and
 * receives again on the next one. The JSON text format itself is supplied by
 * the caller as a pair of functions.
 */
module StateCodec {

  import opened Market

  /**
   * The JSON reader and writer: `decode` is None where the text does not
   * parse, `encode` is None where serialising fails.
   */
  datatype Codec = Codec(decode: string -> Option<StateMap>, encode: StateMap -> Option<string>)

  /** The blob written when serialising the state fails: an empty JSON object. */
  const EmptyStateBlob: string := "{}"

  /** The prior state: empty for an empty blob or one that does not parse, the decoded map otherwise. */
  function Load(codec: Codec, traderData: string): (m: StateMap)
    ensures traderData == "" ==> m == map[]
    ensures traderData != "" && codec.decode(traderData).None? ==> m == map[]
    ensures traderData != "" && codec.decode(traderData).Some? ==> m == codec.decode(traderData).value
  {
    if traderData == "" then map[]
    else match codec.decode(traderData)
      case None => map[]
      case Some(decoded) => decoded
  }

  /** The outgoing blob: the encoded state, or the empty object when encoding fails. */
  function Save(codec: Codec, m: StateMap): (blob: string)
    ensures codec.encode(m).Some? ==> blob == codec.encode(m).value
    ensures codec.encode(m).None? ==> blob == EmptyStateBlob
  {
    match codec.encode(m)
    case Some(text) => text
    case None => EmptyStateBlob
  }

  /** The codec reads back what it writes for `m`, as JSON does: a non-empty text that decodes to `m`. */
  predicate RoundTrips(codec: Codec, m: StateMap) {
    codec.encode(m).Some? ==>
      codec.encode(m).value != "" && codec.decode(codec.encode(m).value) == Some(m)
  }

  /**
   * Across two calls: the state a call saves is the state the next call loads,
   * or the empty state when encoding failed.
   */
  lemma SavedStateIsLoadedNext(codec: Codec, m: StateMap)
    requires RoundTrips(codec, m)
    requires codec.decode(EmptyStateBlob) == Some(map[])
    ensures codec.encode(m).Some? ==> Load(codec, Save(codec, m)) == m
    ensures codec.encode(m).None? ==> Load(codec, Save(codec, m)) == map[]
  {
  }
}
