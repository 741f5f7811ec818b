/** Shared vocabulary of the election pipeline: optional values, JSON objects
    and DynamoDB items, tally keys and the HTTP response record every Lambda
    handler returns. */
module Common {

  datatype Option<+T> = None | Some(value: T)

  /** A JSON object with string fields, or a DynamoDB item whose attributes
      are all strings: attribute name to value. */
  type Item = map<string, string>

  /** The key of a Results row: (state, candidate). */
  type TallyKey = (string, string)

  /** The response record an API Gateway Lambda handler returns. The body is
      kept as a record; its JSON serialisation is not modelled. */
  datatype Response<B> = Response(isBase64Encoded: bool, statusCode: nat, headers: seq<(string, string)>, body: B)

  const AllowOriginHeader := "Access-Control-Allow-Origin"
  const ContentTypeHeader := "Content-Type"

  /** Value of a map entry, or None when the key is absent (a Ruby hash lookup
      that yields nil). */
  function Get<K, V>(m: map<K, V>, k: K): (r: Option<V>)
    ensures r.Some? <==> k in m
    ensures r.Some? ==> r.value == m[k]
  {
    if k in m then Some(m[k]) else None
  }
}
