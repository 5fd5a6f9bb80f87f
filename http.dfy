/**
 * The key/value service as the client sees it: the requests it issues and
 * the abstract responses it gets back. The wire calls, JSON and headers are
 * not modelled.
 */
module Http {

  /** A record of the service. */
  datatype DataItem = DataItem(key: string, value: int)

  /** The requests the client issues. */
  datatype Request =
    | GetHealth                     // GET /health
    | GetAll                        // GET api/data
    | GetItem(key: string)          // GET api/data/{key}
    | PostItem(item: DataItem)      // POST api/data
    | DeleteItem(key: string)       // DELETE api/data/{key}

  /** What a response body deserialises to. */
  datatype Payload = NoContent | JsonNull | Record(item: DataItem) | Records(items: seq<DataItem>) | Malformed

  /** A response with a status code, or a transport failure (unreachable, timed out). */
  datatype Response = Answered(status: int, payload: Payload) | Transport

  /**
   * The service: its answer to the last request of the requests issued so
   * far, so that an answer may depend on everything the client sent before.
   */
  type Server = seq<Request> -> Response

  const OK: int := 200
  const NOT_FOUND: int := 404
  const CONFLICT: int := 409

  /** `HttpResponseMessage.IsSuccessStatusCode`. */
  predicate IsSuccessStatusCode(status: int) {
    200 <= status <= 299
  }
}
