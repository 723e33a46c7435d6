/** What the client relies on but does not implement: message validation, the JSON codec,
    the HTTP/1.1 wire format, the token provider, the HTTP transport and the diagnostic
    dumps. Each is a field of `Env`, a function the model calls but does not define, so
    that every property proved holds whatever these collaborators do. */
module Collaborators {
  import opened Wrappers
  import opened Http
  import opened Messages

  /** The *http.Client a Client sends through: http.DefaultClient or one given by an option. */
  datatype HttpClient = DefaultClient | CustomClient(id: nat)

  /** The token provider built from a service account credentials file. */
  datatype TokenProvider = TokenProvider(credentialsLocation: string)

  datatype Env = Env(
    // Message.Validate: None when the message is well formed, else the error's text
    validate: Message -> Option<string>,
    // json.Marshal of a send request {"message": ..., "validate_only": ...}
    marshal: SendRequest -> Attempt<string>,
    // url.Parse as http.NewRequest applies it to its URL: None when it parses
    parseUrl: string -> Option<string>,
    // Request.Write: the HTTP/1.1 wire form of a request
    writeRequest: Request -> Attempt<string>,
    // http.ReadResponse on the payload of a part
    readResponse: string -> Attempt<Embedded>,
    // ioutil.ReadAll of an embedded response's body
    readBody: string -> Attempt<string>,
    // json.Unmarshal of a part's body into {"name": ...}
    unmarshalName: string -> Attempt<string>,
    // json.NewDecoder(body).Decode of a single-send response into {"name": ...}
    decodeName: string -> Attempt<string>,
    // newTokenProvider(credentialsLocation)
    newTokenProvider: string -> Attempt<TokenProvider>,
    // tokenProvider.token()
    token: TokenProvider -> Attempt<string>,
    // http.Client.Do
    exchange: (HttpClient, Request) -> Exchange,
    // httputil.DumpRequest and httputil.DumpResponse with their bodies
    dumpRequest: Request -> string,
    dumpResponse: Response -> string)

  /** http.NewRequest: a request with an empty header, or the URL's parse error. */
  function NewRequest(env: Env, verb: string, url: string, body: string): (r: Attempt<Request>)
    ensures r.Done? <==> env.parseUrl(url).None?
    ensures r.Done? ==> r.value == Request(verb, url, map[], body)
    ensures r.Fail? ==> r.cause == env.parseUrl(url).value
  {
    match env.parseUrl(url)
    case Some(cause) => Fail(cause)
    case None => Done(Request(verb, url, map[], body))
  }
}
