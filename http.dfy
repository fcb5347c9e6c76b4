/**
 * What a page sees of a `fetch` call: the request either fails outright, or
 * its body cannot be read as JSON, or it comes back with an `ok` flag and a
 * JSON body. Each failure carries the message of the error it raises.
 */
module Http {

  /**
   * The fields of a response body the pages read. A missing field and an
   * empty string are both falsy in the `||` chains, so both are `""` here.
   */
  datatype ReplyData = ReplyData(error: string, message: string, token: string)

  datatype Answer =
    | NetworkFailure(reason: string)
    | Unreadable(reason: string)
    | Answered(ok: bool, data: ReplyData)

  /** Where a page sends the browser. */
  datatype Route = StocksRoute | LoginRoute
}
