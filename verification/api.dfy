/** The request helper shared by the two client services (`apiRequest` in
    bookmarkService.ts and pocketService.ts): it builds the request against
    the configured base URL and turns the server's reply into either the
    decoded payload or an `ApiError`. The network itself is an input: the
    reply the server gave is a parameter. */
module Api {
  import opened Wrappers
  import opened Text

  /** Used when no `VITE_API_URL` is configured (or it is empty). */
  const DefaultBaseUrl: string := "http://localhost:8000"

  /** `import.meta.env.VITE_API_URL || "http://localhost:8000"`. */
  function BaseUrl(env: Option<string>): (u: string)
    ensures env.Some? && env.value != "" ==> u == env.value
    ensures env.None? || env.value == "" ==> u == DefaultBaseUrl
    ensures u != ""
  {
    if env.Some? && env.value != "" then env.value else DefaultBaseUrl
  }

  datatype Method = Get | Post | Patch

  /** The JSON body of a request; the only body the client ever sends is `{"url": …}`. */
  datatype Body = NoBody | UrlBody(url: string)

  /** What goes on the wire: the HTTP verb, the full URL, the body, and
      whether cookies and auth headers are included. Every request carries
      `Content-Type: application/json`. */
  datatype Request = Request(verb: Method, url: string, body: Body, withCredentials: bool)

  /** The body of a reply, as far as the client can read it. */
  datatype Payload<T> =
    | Data(value: T)                     // JSON of the expected shape
    | ErrorObject(detail: Option<string>) // JSON object, with or without a `detail` string
    | NotJson                            // `response.json()` throws

  /** What `fetch` produced: no response at all, or a status with a body. */
  datatype Reply<T> = NoResponse | Response(status: int, payload: Payload<T>)

  /** Why a request failed. `ApiError` is the class the services throw for a
      non-2xx status; the other two are the errors `fetch` and `response.json()`
      raise themselves, which the services let through unchanged. */
  datatype ApiFailure =
    | ApiError(status: int, message: string, detail: Option<string>)
    | NetworkFailure
    | MalformedBody

  /** `response.ok`. */
  predicate IsOk(status: int) {
    200 <= status <= 299
  }

  const FailurePrefix: string := "API request failed with status "

  /** The message of an `ApiError` for the given status. */
  function FailureMessage(status: int): (m: string)
    ensures |m| > |FailurePrefix| && m[..|FailurePrefix|] == FailurePrefix
  {
    FailurePrefix + IntToString(status)
  }

  /** The message names the status it was built from: reading the number back
      after the fixed prefix gives that status. */
  lemma FailureMessageNamesStatus(status: int)
    ensures ParseInt(FailureMessage(status)[|FailurePrefix|..]) == Some(status)
  {
    assert FailureMessage(status)[|FailurePrefix|..] == IntToString(status);
    IntToStringRoundTrip(status);
  }

  /** Two failures with the same message have the same status. */
  lemma FailureMessageInjective(a: int, b: int)
    requires FailureMessage(a) == FailureMessage(b)
    ensures a == b
  {
    FailureMessageNamesStatus(a);
    FailureMessageNamesStatus(b);
  }

  /** `${API_BASE_URL}${endpoint}` with the options the helper spreads in. */
  function MakeRequest(base: string, endpoint: string, verb: Method, body: Body, withCredentials: bool): (r: Request)
    ensures r.url == base + endpoint && r.url[..|base|] == base
    ensures r.verb == verb && r.body == body && r.withCredentials == withCredentials
  {
    Request(verb, base + endpoint, body, withCredentials)
  }

  /** The reply-handling half of `apiRequest`. */
  function Respond<T>(reply: Reply<T>): (r: Result<T, ApiFailure>)
    ensures reply.NoResponse? ==> r == Failure(NetworkFailure)
    ensures reply.Response? && !IsOk(reply.status) ==>
              r.Failure? && r.error.ApiError? &&
              r.error.status == reply.status &&
              r.error.message == FailureMessage(reply.status) &&
              (r.error.detail.Some? <==> reply.payload.ErrorObject? && reply.payload.detail.Some?) &&
              (r.error.detail.Some? ==> r.error.detail == reply.payload.detail)
    ensures reply.Response? && IsOk(reply.status) ==>
              (r.Success? <==> reply.payload.Data?) &&
              (r.Success? ==> r.value == reply.payload.value) &&
              (r.Failure? ==> r.error == MalformedBody)
  {
    match reply
    case NoResponse => Failure(NetworkFailure)
    case Response(status, payload) =>
      if !IsOk(status) then
        var detail := if payload.ErrorObject? then payload.detail else None;
        Failure(ApiError(status, FailureMessage(status), detail))
      else if payload.Data? then Success(payload.value)
      else Failure(MalformedBody)
  }

  /** Every failure that comes from a status is an `ApiError` carrying a non-2xx status. */
  lemma ApiErrorsAreNotOk<T>(reply: Reply<T>)
    requires Respond(reply).Failure? && Respond(reply).error.ApiError?
    ensures reply.Response? && !IsOk(reply.status)
    ensures Respond(reply).error.status == reply.status
  {
  }

  /** A call exchanges one request for one outcome. */
  datatype Exchange<T> = Exchange(request: Request, outcome: Result<T, ApiFailure>)

  /** `String(b)` in a template literal. */
  function BoolText(b: bool): (s: string)
    ensures s == "true" <==> b
    ensures s == "false" <==> !b
  {
    if b then "true" else "false"
  }
}
