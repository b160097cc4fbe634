/**
 * The request helper shared by both revisions of the API service: how a
 * reply of the REST API becomes a value or an error, how the Authorization
 * header is formed, and the "missing file reads as empty" rule for file
 * content. The HTTP transport and JSON decoding are not modelled: a reply
 * is given as a value.
 */
module GitHubRest {
  import opened Wrappers
  import opened Strings

  /** What a non-2xx reply carries: its status text and the `message` field of its JSON body, if any. */
  datatype ErrorBody = ErrorBody(statusText: string, message: Option<string>)

  /** A reply of the REST API: `response.ok` with its decoded JSON, or an error body. */
  datatype HttpReply<T> = Ok(data: T) | NotOk(body: ErrorBody)

  const RequestFailedPrefix := "GitHub API request failed: "

  /** The message `apiFetch` throws: the remote's own message when it has one, else a fixed prefix and the status text. */
  function ErrorText(e: ErrorBody): (msg: string)
    ensures e.message.Some? && e.message.value != "" ==> msg == e.message.value
    ensures !(e.message.Some? && e.message.value != "") ==> msg == RequestFailedPrefix + e.statusText
  {
    match e.message
    case Some(m) => if m != "" then m else RequestFailedPrefix + e.statusText
    case None => RequestFailedPrefix + e.statusText
  }

  /** `apiFetch` after the request: the decoded body on success, else the error message it throws. */
  function ApiFetch<T>(reply: HttpReply<T>): (r: Result<T, string>)
    ensures r.Success? <==> reply.Ok?
    ensures reply.Ok? ==> r.value == reply.data
    ensures reply.NotOk? ==> r.error == ErrorText(reply.body)
  {
    match reply
    case Ok(d) => Success(d)
    case NotOk(e) => Failure(ErrorText(e))
  }

  /** A non-empty remote message reaches the caller verbatim; no reply yields an empty error. */
  lemma ErrorTextIsVerbatimOrPrefixed(e: ErrorBody)
    ensures ErrorText(e) != ""
    ensures e.message.Some? && e.message.value != "" ==> ErrorText(e) == e.message.value
    ensures e.message.None? || e.message.value == "" ==> ErrorText(e)[..|RequestFailedPrefix|] == RequestFailedPrefix
  {
  }

  /** The `message` of the `TypeError` that `undefined.trim()` raises. */
  const TrimOfUndefined := "Cannot read properties of undefined (reading 'trim')"

  /**
   * The Authorization header of the current service, which trims the token
   * first. A missing token (`undefined`) makes `token.trim()` throw before
   * any request is sent.
   */
  function AuthHeader(token: Option<string>): (r: Result<string, string>)
    ensures r.Success? <==> token.Some?
    ensures token.Some? ==> r.value == "token " + Trim(token.value)
    ensures token.None? ==> r.error == TrimOfUndefined
  {
    match token
    case Some(t) => Success("token " + Trim(t))
    case None => Failure(TrimOfUndefined)
  }

  /** The Authorization header of the older service: the token as given, `undefined` included. */
  function LegacyAuthHeader(token: Option<string>): (h: string)
    ensures token.Some? ==> h == "token " + token.value
    ensures token.None? ==> h == "token undefined"
  {
    "token " + match token case Some(t) => t case None => "undefined"
  }

  /** Tokens that differ only in surrounding white space give the same header in the current service. */
  lemma AuthHeaderIgnoresSurroundingWhiteSpace(t: string)
    ensures AuthHeader(Some(Trim(t))) == AuthHeader(Some(t))
  {
    TrimIdempotent(t);
  }

  const NotFound := "Not Found"

  /**
   * `getFileContent` (identical in both revisions): the decoded content, "" when the
   * error message mentions "Not Found", every other error rethrown unchanged.
   * Base64 decoding is not modelled: an `Ok` reply carries the decoded text.
   */
  function GetFileContent(reply: HttpReply<string>): (r: Result<string, string>)
    ensures reply.Ok? ==> r == Success(reply.data)
    ensures reply.NotOk? && Contains(ErrorText(reply.body), NotFound) ==> r == Success("")
    ensures reply.NotOk? && !Contains(ErrorText(reply.body), NotFound) ==> r == Failure(ErrorText(reply.body))
  {
    match ApiFetch(reply)
    case Success(content) => Success(content)
    case Failure(msg) => if Contains(msg, NotFound) then Success("") else Failure(msg)
  }

  /** `getFileContent` never surfaces a "Not Found" error: a missing file is new, not a failure. */
  lemma GetFileContentNeverReportsNotFound(reply: HttpReply<string>)
    ensures GetFileContent(reply).Failure? ==> !Contains(GetFileContent(reply).error, NotFound)
    ensures GetFileContent(reply).Failure? ==> ApiFetch(reply) == GetFileContent(reply)
  {
  }

  /** GitHub's 404 reply, with its message or with only the status text, reads as an empty file. */
  lemma MissingFileReadsAsEmpty(withMessage: bool)
    ensures GetFileContent(NotOk(ErrorBody(NotFound, if withMessage then Some(NotFound) else None))) == Success("")
  {
    var msg := ErrorText(ErrorBody(NotFound, if withMessage then Some(NotFound) else None));
    if withMessage {
      assert OccursAt(msg, NotFound, 0);
    } else {
      assert msg == RequestFailedPrefix + NotFound;
      assert OccursAt(msg, NotFound, |RequestFailedPrefix|);
    }
  }
}
