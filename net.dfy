/** The HTTP collaborators the core cannot see, as fallible oracles. */
module Net {
  import opened Common

  /** A parsed URL: its serialisation (`Url::as_str`) and its host (`Url::host_str`). */
  datatype Url = Url(href: string, host: Option<string>)

  /** What the core reads of a response: the numeric status and the final URL. */
  datatype Response = Response(status: U16, url: Url)

  /** `Url::join` (WHATWG URL Standard parsing, may fail) and a GET request
      (may fail at the transport level), both given from outside. */
  datatype Http = Http(join: (Url, string) -> Option<Url>, get: Url -> Option<Response>)

  /** `StatusCode::is_success`: the 2xx class of section 15.3 of RFC 9110. */
  predicate IsSuccess(status: U16) {
    200 <= status <= 299
  }
}
