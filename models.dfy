// Records exchanged between the handlers and the mapping store, and the small
// wrappers used for the Go (value, error) returns.
module Models {

  datatype Option<+T> = None | Some(value: T)

  /** One stored mapping as the handlers build it (internal/models/models.go). */
  datatype URLData = URLData(
    uuid: string,
    shortURL: string,
    originalURL: string,
    deletedFlag: bool,
    userUUID: string,
    correlationID: string)

  /** One item of a batch-create request. */
  datatype BatchRequest = BatchRequest(correlationID: string, originalURL: string)

  /** One item of a batch-create response. */
  datatype BatchResponse = BatchResponse(correlationID: string, shortURL: string)

  /** The HTTP statuses the handlers answer with. */
  datatype Status =
    | OK | Created | Accepted | NoContent | TemporaryRedirect
    | BadRequest | Unauthorized | NotFound | RequestTimeout | Conflict | Gone
    | InternalServerError

  /** The numeric code of each status (net/http constants).  A standalone
      table: the handlers' contracts speak of Status values, never of their
      numbers. */
  function StatusCode(s: Status): (n: int)
    ensures 200 <= n < 300 <==> s in {OK, Created, Accepted, NoContent}
    ensures 300 <= n < 400 <==> s == TemporaryRedirect
    ensures 400 <= n < 500 <==> s in {BadRequest, Unauthorized, NotFound, RequestTimeout, Conflict, Gone}
    ensures 500 <= n < 600 <==> s == InternalServerError
  {
    match s
    case OK => 200
    case Created => 201
    case Accepted => 202
    case NoContent => 204
    case TemporaryRedirect => 307
    case BadRequest => 400
    case Unauthorized => 401
    case NotFound => 404
    case RequestTimeout => 408
    case Conflict => 409
    case Gone => 410
    case InternalServerError => 500
  }

  /** A gRPC error status: its code and message. */
  datatype GrpcStatus = GrpcStatus(code: int, message: string)

  /** The full short link: the configured base URL, a slash, the bare code. */
  function ShortLink(base: string, code: string): (link: string)
    ensures |link| == |base| + 1 + |code|
    ensures link[..|base|] == base && link[|base|] == '/' && link[|base| + 1..] == code
  {
    base + "/" + code
  }

  /** Two links over the same base are equal exactly when their codes are. */
  lemma ShortLinkInjective(base: string, c1: string, c2: string)
    ensures ShortLink(base, c1) == ShortLink(base, c2) <==> c1 == c2
  {
    if ShortLink(base, c1) == ShortLink(base, c2) {
      assert c1 == ShortLink(base, c1)[|base| + 1..];
    }
  }
}
