/** The one-byte type tags that precede every encoded value (compressor/dtypes.py). */
module Tags {
  import opened Bytes

  /** The five members of the enumeration. */
  datatype CompressType = INTEGER | STRING | BOOLEAN | LIST | OBJECT

  /** The member's value, the byte written on the wire. No member has value 0,
      and every value fits in one byte. */
  function TagByte(t: CompressType): (b: byte)
    ensures 1 <= b <= 5
  {
    match t
    case INTEGER => 1
    case STRING => 2
    case BOOLEAN => 3
    case LIST => 4
    case OBJECT => 5
  }

  /** `CompressTypes(b)`: the member whose value is `b`; any other byte raises
      ValueError. */
  function FromByte(b: byte): (r: Result<CompressType>)
    ensures r.Ok? <==> 1 <= b <= 5
    ensures r.Ok? ==> TagByte(r.value) == b
    ensures r.Err? ==> r.error == ValueError
  {
    if b == 1 then Ok(INTEGER)
    else if b == 2 then Ok(STRING)
    else if b == 3 then Ok(BOOLEAN)
    else if b == 4 then Ok(LIST)
    else if b == 5 then Ok(OBJECT)
    else Err(ValueError)
  }

  /** Distinct members have distinct values, and converting a member to its byte
      and back gives the same member. */
  lemma TagRoundTrip(s: CompressType, t: CompressType)
    ensures FromByte(TagByte(t)) == Ok(t)
    ensures TagByte(s) == TagByte(t) ==> s == t
  {
  }
}
