/** Models internal/presence/client.go: what one answer of the agent means, and
    the classification of failures in internal/presence/reconciler.go. */
module PresenceClient {
  import opened Optional

  /** presenceapi.State is a string on the wire, so a third, unusable value exists. */
  datatype State = Present | Parked | Unknown(raw: string) {
    predicate Valid() {
      Present? || Parked?
    }
  }

  datatype Body = Undecodable | Decoded(effective: State)

  /** One HTTP exchange as the client sees it. */
  datatype Response =
    | TransportError
    | Answer(status: int, body: Body, etag: string)

  datatype FetchError = Transport | InvalidResponse | HttpError(status: int)

  datatype Fetched = Fetched(effective: State, etag: string, notModified: bool)

  datatype Result<+T> = Ok(value: T) | Err(error: FetchError)

  /** Client.Fetch. A 304 leaves the presence at its zero value, the empty state. */
  function Fetch(etag: string, resp: Response): Result<Fetched> {
    match resp
    case TransportError => Err(Transport)
    case Answer(status, body, tag) =>
      if status == 304 then Ok(Fetched(Unknown(""), etag, true))
      else if status != 200 then Err(HttpError(status))
      else match body {
        case Undecodable => Err(InvalidResponse)
        case Decoded(st) => if st.Valid() then Ok(Fetched(st, tag, false)) else Err(InvalidResponse)
      }
  }

  /** Client.Report: the error, if any. */
  function Report(resp: Response): Option<FetchError> {
    match resp
    case TransportError => Some(Transport)
    case Answer(status, _, _) => if 200 <= status < 300 then None else Some(HttpError(status))
  }

  /** A valid 200 answer: the only kind of answer that may move the bot. */
  predicate Usable(resp: Response) {
    resp.Answer? && resp.status == 200 && resp.body.Decoded? && resp.body.effective.Valid()
  }

  /** The states a fetch lets through are exactly those of usable answers, with their own
      tag; everything else is a failure, or a "not modified" for the tag sent. */
  lemma FetchAcceptsExactlyUsable(etag: string, resp: Response)
    ensures Fetch(etag, resp).Ok? && !Fetch(etag, resp).value.notModified <==> Usable(resp)
    ensures Usable(resp) ==> Fetch(etag, resp) == Ok(Fetched(resp.body.effective, resp.etag, false))
    ensures Fetch(etag, resp).Ok? && Fetch(etag, resp).value.notModified <==> resp.Answer? && resp.status == 304
    ensures resp.Answer? && resp.status == 304 ==> Fetch(etag, resp).value.etag == etag
  {
  }

  datatype Kind = Unreachable | Rejected | Invalid

  /** classify: the kind of a failure ... */
  function Classify(err: FetchError): Kind {
    match err
    case InvalidResponse => Invalid
    case HttpError(status) =>
      if status == 408 || status == 429 then Unreachable
      else if 400 <= status < 500 then Rejected
      else Unreachable
    case Transport => Unreachable
  }

  /** ... and the status it is logged with, 0 for none. */
  function StatusOf(err: FetchError): int {
    if err.HttpError? then err.status else 0
  }

  /** A failure is an error in the log, rather than a warning, exactly when waiting cannot end it:
      the agent answered 200 with something unusable, or blamed the client (sections 15.5.1 to
      15.5.22 of RFC 9110) other than for its timing (408, and 429 of RFC 6585, section 4). */
  lemma ErrorsNeedAPerson(etag: string, resp: Response)
    requires Fetch(etag, resp).Err?
    ensures Classify(Fetch(etag, resp).error) != Unreachable <==>
      resp.Answer? && (resp.status == 200 || (400 <= resp.status < 500 && resp.status != 408 && resp.status != 429))
    ensures Classify(Fetch(etag, resp).error) == Invalid <==> resp.Answer? && resp.status == 200
    ensures StatusOf(Fetch(etag, resp).error) == if resp.Answer? && resp.status != 200 then resp.status else 0
  {
  }
}
