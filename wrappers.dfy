/** Optional values, as used for PHP's nullable values and lookups. */
module Wrappers {

  datatype Option<+T> = None | Some(value: T)
  {
    /** The value, or `default` when there is none (PHP's `??`). */
    function GetOr(default: T): T
    {
      match this
      case Some(v) => v
      case None => default
    }
  }

  /** A computation that completes with a value or throws an exception with a message. */
  datatype Result<+T> = Success(value: T) | Failure(error: string)
}

/**
 * A text column that holds a JSON-serialised value, as the session and job records
 * keep their lists and maps. PHP's `empty()` column (null, "" or "0") is `Unset`; text
 * the serializer rejects is `Undecodable`. The serializer itself is not modelled: a
 * column holds the decoded value directly.
 */
module Columns {

  datatype Stored<T> = Unset | Encoded(value: T) | Undecodable

  /** The decoded value, or the record's fallback when the column is empty or does not decode. */
  function Decode<T>(c: Stored<T>, default: T): T
  {
    if c.Encoded? then c.value else default
  }
}
