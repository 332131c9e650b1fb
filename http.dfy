/**
 * The values that cross the HTTP boundary: bytes, the two kinds of exception
 * the request handlers throw, and the response a request ends with.
 */
module Http {
  import opened Wrappers

  newtype byte = x: int | 0 <= x < 256

  /** What a handler throws: an `HttpListenerException` carries its own status code,
      anything else (here a filesystem error) is rendered as 500. */
  datatype Exception =
    | HttpListenerException(errorCode: int, message: string)
    | IOException(message: string)

  /** Completion of an operation that returns nothing: it passes or throws. */
  datatype Outcome = Pass | Fail(error: Exception)

  /** The identity `HttpListener` decoded from the basic credentials, if any. */
  datatype Credentials = Credentials(name: string, password: string)

  /** What the handlers read from an `HttpListenerContext`. `path` is `Url?.AbsolutePath`
      and `query` is `Url?.Query` (both absent when the URL is), `authorizationHeader`
      the raw header, `body` everything the client sends. */
  datatype Request = Request(
    httpMethod: string,
    path: Option<string>,
    query: Option<string>,
    authorizationHeader: Option<string>,
    identity: Option<Credentials>,
    body: seq<byte>)

  /** How a request ends, seen by the client. `Unhandled` is an exception no `catch`
      takes: the request's lambda is `async void` (it is given to `new Task(Action)`),
      so the runtime rethrows it on the thread pool, which by default ends the process;
      this request gets no response. */
  datatype Response =
    | ErrorReply(status: int, message: string)   // status code with body { "error": message }
    | SuccessReply                               // 200 with body { "success": true }
    | ModelReply(bytes: seq<byte>)               // 200 with the stored model as the body
    | Unhandled(error: Exception)                // thrown outside every catch: no response
}
