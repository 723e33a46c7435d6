/** Sending one message (client.go): Send validates and marshals the request, and send
    posts it to the project's send endpoint with the bearer token, classifies the status
    and takes the message ID from the returned resource name. */
module Single {
  import opened Wrappers
  import opened Text
  import opened Http
  import opened Messages
  import opened Errors
  import opened Collaborators
  import opened Clients

  /** The Content-Type of a single send. */
  const JsonType: string := "application/json"

  /** The message ID in a resource name "projects/<p>/messages/<id>": what follows the last
      '/', or the whole name when it holds none. The length test of the source always
      passes, so its fall-back "" is never returned. */
  function MessageIdOf(name: string): (id: string)
    ensures '/' !in id
    ensures |id| <= |name| && id == name[|name| - |id|..]
    ensures '/' !in name ==> id == name
    ensures '/' in name ==> |id| < |name| && name[|name| - |id| - 1] == '/'
  {
    var last := LastIndexOf(name, '/');
    AfterLastIndexOf(name, '/');
    assert '/' in name ==> last >= 0 && name[last] == '/';
    assert '/' !in name ==> last == -1 && name[last + 1..] == name;
    if |name| > last then name[last + 1..]
    else assert false; ""
  }

  /** A resource name of the documented form gives back the ID it ends with. */
  lemma MessageIdOfResourceName(prefix: string, id: string)
    requires '/' !in id
    ensures MessageIdOf(prefix + "/" + id) == id
  {
    var name := prefix + "/" + id;
    var r := MessageIdOf(name);
    assert name[|prefix|] == '/';
    assert '/' in name;
    assert r == name[|name| - |id|..] == id;
  }

  /** The request send hands to the transport. */
  function SendRequestFor(req: Request, token: string): Request {
    req.(header := Authorized(req.header, token, JsonType))
  }

  /** What send returns for the marshalled `data`: an error of the URL, of the token
      provider, of the transport, an HttpError for a status other than 200, a decoding
      error, or the message ID of the returned name. */
  function SendResult(env: Env, sendEndpoint: string, tp: TokenProvider, client: HttpClient, data: string): Result<string> {
    match NewRequest(env, MethodPost, sendEndpoint, data)
    case Fail(cause) => Err(Library(cause))
    case Done(req) =>
      match env.token(tp)
      case Fail(cause) => Err(Auth(cause))
      case Done(token) =>
        var out := SendRequestFor(req, token);
        match env.exchange(client, out)
        case Failed(cause) => Err(Transport(cause))
        case Answered(resp) =>
          if resp.statusCode != StatusOK then
            Err(Status(HttpError(env.dumpRequest(out), env.dumpResponse(resp), StatusErrorText(resp.statusCode, resp.status))))
          else
            match env.decodeName(resp.body)
            case Fail(cause) => Err(Library(cause))
            case Done(name) => Ok(MessageIdOf(name))
  }

  /** send: create the request, fetch the token, add the two headers, perform the exchange
      and read the name from a 200 answer. */
  method SendData(env: Env, c: Client, data: string) returns (r: Result<string>)
    ensures r == SendResult(env, c.sendEndpoint, c.tokenProvider, c.client, data)
  {
    var req := NewRequest(env, MethodPost, c.sendEndpoint, data);
    if req.Fail? {
      return Err(Library(req.cause));
    }
    var token := env.token(c.tokenProvider);
    if token.Fail? {
      return Err(Auth(token.cause));
    }
    var out := req.value;
    out := out.(header := AddHeader(out.header, "Authorization", "Bearer " + token.value));
    out := out.(header := AddHeader(out.header, "Content-Type", JsonType));
    var resp := env.exchange(c.client, out);
    if resp.Failed? {
      return Err(Transport(resp.cause));
    }
    if resp.response.statusCode != StatusOK {
      var requestBytes := env.dumpRequest(out);
      var responseBytes := env.dumpResponse(resp.response);
      return Err(Status(HttpError(requestBytes, responseBytes, StatusErrorText(resp.response.statusCode, resp.response.status))));
    }
    var name := env.decodeName(resp.response.body);
    if name.Fail? {
      return Err(Library(name.cause));
    }
    r := Ok(MessageIdOf(name.value));
  }

  /** Send: a message Validate refuses is returned as its error before anything is
      marshalled or sent; a marshalling error is returned as is; otherwise send. */
  method Send(env: Env, c: Client, req: SendRequest) returns (r: Result<string>)
    ensures env.validate(req.message).Some? ==> r == Err(Invalid(env.validate(req.message).value))
    ensures env.validate(req.message).None? && env.marshal(req).Fail? ==> r == Err(Library(env.marshal(req).cause))
    ensures env.validate(req.message).None? && env.marshal(req).Done? ==>
      r == SendResult(env, c.sendEndpoint, c.tokenProvider, c.client, env.marshal(req).value)
  {
    var err := env.validate(req.message);
    if err.Some? {
      return Err(Invalid(err.value));
    }
    var data := env.marshal(req);
    if data.Fail? {
      return Err(Library(data.cause));
    }
    r := SendData(env, c, data.value);
  }

  /** A token error ends send before the transport is called: the outcome is the same
      whatever the transport would do. */
  lemma TokenBeforeTransport(env: Env, sendEndpoint: string, tp: TokenProvider, client: HttpClient, data: string,
                             exchange: (HttpClient, Request) -> Exchange)
    requires env.parseUrl(sendEndpoint).None? && env.token(tp).Fail?
    ensures SendResult(env, sendEndpoint, tp, client, data) == Err(Auth(env.token(tp).cause))
    ensures SendResult(env.(exchange := exchange), sendEndpoint, tp, client, data) == SendResult(env, sendEndpoint, tp, client, data)
  {
  }

  /** The transport receives a POST of the data to the send endpoint whose header holds
      exactly the bearer token and the JSON Content-Type. */
  lemma SentRequestShape(env: Env, sendEndpoint: string, data: string, token: string)
    requires env.parseUrl(sendEndpoint).None?
    ensures var out := SendRequestFor(NewRequest(env, MethodPost, sendEndpoint, data).value, token);
      && out.verb == MethodPost && out.url == sendEndpoint && out.body == data
      && GetHeader(out.header, "Authorization") == "Bearer " + token
      && GetHeader(out.header, "Content-Type") == JsonType
      && out.header.Keys == {CanonicalKey("Authorization"), CanonicalKey("Content-Type")}
  {
    AuthorizedHeaders(token, JsonType);
  }

  /** Any status other than 200 yields an HttpError carrying both dumps and the
      "<code> error: <status>" text, and no message ID; a 200 whose body decodes yields the
      ID of the decoded name. */
  lemma SendStatusClassified(env: Env, sendEndpoint: string, tp: TokenProvider, client: HttpClient, data: string)
    requires env.parseUrl(sendEndpoint).None? && env.token(tp).Done?
    requires env.exchange(client, SendRequestFor(NewRequest(env, MethodPost, sendEndpoint, data).value, env.token(tp).value)).Answered?
    ensures var out := SendRequestFor(NewRequest(env, MethodPost, sendEndpoint, data).value, env.token(tp).value);
      var resp := env.exchange(client, out).response;
      && (resp.statusCode != StatusOK ==>
            SendResult(env, sendEndpoint, tp, client, data)
              == Err(Status(HttpError(env.dumpRequest(out), env.dumpResponse(resp), StatusErrorText(resp.statusCode, resp.status)))))
      && (resp.statusCode == StatusOK && env.decodeName(resp.body).Done? ==>
            SendResult(env, sendEndpoint, tp, client, data) == Ok(MessageIdOf(env.decodeName(resp.body).value)))
  {
  }
}
