/** What is known of a failed response, and the class it is given: src/classifier.go:13-32. */
module Failures {
  import opened Basics

  /** A parsed floating-point number. Rounding is not modelled. */
  datatype Number = NaN | Infinite | Finite(value: real)

  /** One "amount unit" piece of a retry sentence, as the regular expression splits it. */
  datatype Part = Part(amount: Number, unit: char)

  /** A string of the response together with what Go's parsers read in it: `normal` is the
      trimmed lower-case text, `instant` the RFC 3339 or HTTP date (0 when there is none),
      `retry` the pieces of a "try again in ..." sentence. */
  datatype Token = Token(raw: string, normal: string, number: Option<Number>,
                         duration: Option<int>, instant: Time, retry: Option<seq<Part>>)

  const NoText := Token("", "", None, None, 0, None)

  type Fields = map<string, Json>

  datatype Json = Str(token: Token) | Num(number: Option<Number>) | Obj(fields: map<string, Json>) | Other

  datatype Kind = Unset | Success | Quota | RateLimit | Auth | Transient | Failure

  datatype Source = NoSource | RetryAfterHeader | BodyDuration | BodyTimestamp | BodyMessage
                  | QuotaFallback | RateLimitFallback | TransientFallback

  datatype Fallback = NoFallback | NoResetProvided | InvalidOrExpiredReset | NoValidRateReset | UpstreamFailure

  datatype Classification = Classification(kind: Kind, until: Time, source: Source, fallback: Fallback)

  const NoClassification := Classification(Unset, 0, NoSource, NoFallback)

  /** A delivered failure: its status, `Retry-After` header and parsed body. */
  datatype Response = Response(status: int, retryAfter: Token, root: Fields)
}
