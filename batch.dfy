/** Sending a batch (message_batch.go): the size guards, the assembly of the outer
    request from one embedded send request per message, the outer exchange and its status,
    and the decoding of the multipart response into one outcome per part. */
module Batch {
  import opened Wrappers
  import opened Text
  import opened Http
  import opened Multipart
  import opened Messages
  import opened Errors
  import opened Collaborators
  import opened Clients
  import opened Envelope
  import opened Single

  /** SendResponse: the outcome of one message of a batch. */
  datatype SendResponse = SendResponse(success: bool, messageID: string, errorCode: int, errorBody: string)

  /** MulticastResponse: the outcomes in part order, and how many succeeded and failed. */
  datatype MulticastResponse = MulticastResponse(successCount: int, failureCount: int, responses: seq<SendResponse>)

  // ---------------------------------------------------------------------------
  // Assembling the outer request

  /** The caller headers every embedded request is given. */
  const ApiHeaders: map<string, string> := map[ApiFormatVersionHeader := ApiFormatVersion]

  /** The part newBatchRequest builds for one message. */
  function PartFor(sendEndpoint: string, m: Message, dryRun: bool): Part {
    Part(MethodPost, sendEndpoint, ApiHeaders, SendRequest(dryRun, m))
  }

  function Parts(sendEndpoint: string, messages: seq<Message>, dryRun: bool): (ps: seq<Part>)
    ensures |ps| == |messages|
  {
    seq(|messages|, i requires 0 <= i < |messages| => PartFor(sendEndpoint, messages[i], dryRun))
  }

  /** The index of the first message Validate refuses, if any. */
  function FirstInvalid(env: Env, messages: seq<Message>): (r: Option<nat>)
    ensures r.Some? ==> r.value < |messages| && env.validate(messages[r.value]).Some?
    ensures r.Some? ==> forall j :: 0 <= j < r.value ==> env.validate(messages[j]).None?
    ensures r.None? <==> forall j :: 0 <= j < |messages| ==> env.validate(messages[j]).None?
  {
    if messages == [] then None
    else if env.validate(messages[0]).Some? then Some(0)
    else
      match FirstInvalid(env, messages[1..])
      case None => None
      case Some(k) => Some(k + 1)
  }

  /** What newBatchRequest returns, the caller headers of part i being visited in
      orders[i]: the first invalid message's index and error; or an error of the envelope,
      of the URL, or of the token provider; or a POST of the envelope to the batch endpoint
      with the bearer token and the multipart Content-Type added. */
  function BatchRequest(env: Env, sendEndpoint: string, batchEndpoint: string, tp: TokenProvider,
                        messages: seq<Message>, dryRun: bool, orders: seq<seq<string>>): Result<Request>
    requires OrdersFit(Parts(sendEndpoint, messages, dryRun), orders)
  {
    match FirstInvalid(env, messages)
    case Some(k) => Err(InvalidMessage(k, env.validate(messages[k]).value))
    case None =>
      var entity := MultipartEntity(Parts(sendEndpoint, messages, dryRun));
      match Body(env, entity.parts, orders)
      case Fail(cause) => Err(Library(cause))
      case Done(body) =>
        match NewRequest(env, MethodPost, batchEndpoint, body)
        case Fail(cause) => Err(Library(cause))
        case Done(req) =>
          match env.token(tp)
          case Fail(cause) => Err(Auth(cause))
          case Done(token) => Ok(req.(header := Authorized(req.header, token, entity.Mime())))
  }

  /** newBatchRequest: validate each message and build its part, stopping at the first
      invalid one; then write the envelope, create the request and add the headers. */
  method NewBatchRequest(env: Env, c: Client, messages: seq<Message>, dryRun: bool)
    returns (r: Result<Request>, ghost orders: seq<seq<string>>)
    ensures OrdersFit(Parts(c.sendEndpoint, messages, dryRun), orders)
    ensures r == BatchRequest(env, c.sendEndpoint, c.batchEndpoint, c.tokenProvider, messages, dryRun, orders)
    ensures FirstInvalid(env, messages).Some? ==>
      r == Err(InvalidMessage(FirstInvalid(env, messages).value, env.validate(messages[FirstInvalid(env, messages).value]).value))
  {
    var headers := ApiHeaders;
    var parts: seq<Part> := [];
    for idx := 0 to |messages|
      invariant |parts| == idx
      invariant forall j :: 0 <= j < idx ==> parts[j] == PartFor(c.sendEndpoint, messages[j], dryRun)
      invariant forall j :: 0 <= j < idx ==> env.validate(messages[j]).None?
    {
      var err := env.validate(messages[idx]);
      if err.Some? {
        orders := seq(|messages|, _ => []);
        return Err(InvalidMessage(idx, err.value)), orders;
      }
      parts := parts + [Part(MethodPost, c.sendEndpoint, headers, SendRequest(dryRun, messages[idx]))];
    }
    assert parts == Parts(c.sendEndpoint, messages, dryRun);
    var body := MultipartEntity(parts);
    var bodyBytes;
    bodyBytes, orders := body.Bytes(env);
    if bodyBytes.Fail? {
      return Err(Library(bodyBytes.cause)), orders;
    }
    var req := NewRequest(env, MethodPost, c.batchEndpoint, bodyBytes.value);
    if req.Fail? {
      return Err(Library(req.cause)), orders;
    }
    var token := env.token(c.tokenProvider);
    if token.Fail? {
      return Err(Auth(token.cause)), orders;
    }
    var header := req.value.header;
    header := AddHeader(header, "Authorization", "Bearer " + token.value);
    header := AddHeader(header, "Content-Type", body.Mime());
    r := Ok(req.value.(header := header));
  }

  /** When message k is the first Validate refuses, assembly fails naming k and that
      message's error, whatever the messages after k, the envelope encoders and the token
      provider would do: none of them is consulted. */
  lemma InvalidMessageAborts(env: Env, sendEndpoint: string, batchEndpoint: string, tp: TokenProvider,
                             messages: seq<Message>, dryRun: bool, orders: seq<seq<string>>, k: nat, other: Env)
    requires OrdersFit(Parts(sendEndpoint, messages, dryRun), orders)
    requires k < |messages| && env.validate(messages[k]).Some?
    requires forall j :: 0 <= j < k ==> env.validate(messages[j]).None?
    requires other.validate == env.validate
    ensures BatchRequest(env, sendEndpoint, batchEndpoint, tp, messages, dryRun, orders)
      == Err(InvalidMessage(k, env.validate(messages[k]).value))
    ensures BatchRequest(other, sendEndpoint, batchEndpoint, tp, messages[..k + 1], dryRun, orders[..k + 1])
      == BatchRequest(env, sendEndpoint, batchEndpoint, tp, messages, dryRun, orders)
  {
    var pre := messages[..k + 1];
    assert forall j :: 0 <= j <= k ==> pre[j] == messages[j];
    assert FirstInvalid(env, messages) == Some(k);
    assert FirstInvalid(other, pre) == Some(k);
  }

  /** Part i of a valid batch is a POST of message i, with the dry-run flag, to the send
      endpoint; its embedded request carries the API format version header, the JSON
      Content-Type and an empty User-Agent, and nothing else. */
  lemma PartsAreSendRequests(sendEndpoint: string, messages: seq<Message>, dryRun: bool, i: nat, order: seq<string>)
    requires i < |messages| && IsEnumeration(order, ApiHeaders)
    ensures var p := Parts(sendEndpoint, messages, dryRun)[i];
      && p.verb == MethodPost && p.url == sendEndpoint
      && p.body == SendRequest(dryRun, messages[i])
      && EmbeddedHeader(p.headers, order) == map[
           CanonicalKey(ApiFormatVersionHeader) := [ApiFormatVersion],
           ContentTypeKey := [JsonContentType],
           UserAgentKey := [""]]
  {
    SingleHeaderOrder(ApiFormatVersionHeader, ApiFormatVersion, order);
    assert order[..0] == [];
    assert Parts(sendEndpoint, messages, dryRun)[i].headers == ApiHeaders;
    var one := SetAll(map[], ApiHeaders, order);
    assert SetAll(map[], ApiHeaders, order[..0]) == map[];
    assert ApiHeaders[ApiFormatVersionHeader] == ApiFormatVersion;
    assert one == SetHeader(map[], ApiFormatVersionHeader, ApiFormatVersion);
    assert EmbeddedHeader(ApiHeaders, order) == one[ContentTypeKey := [JsonContentType]][UserAgentKey := [""]];
  }

  /** A map of one header is visited in the only order there is. */
  lemma SingleHeaderOrder(k: string, v: string, order: seq<string>)
    requires IsEnumeration(order, map[k := v])
    ensures order == [k]
  {
    assert k in order;
    var i :| 0 <= i < |order| && order[i] == k;
    assert forall j :: 0 <= j < |order| ==> order[j] == k;
    assert order[0] == order[|order| - 1];
  }

  /** A request newBatchRequest returns is a POST to the batch endpoint whose header holds
      exactly the bearer token and a Content-Type naming the boundary the body is written
      with; its body is the envelope of the parts' encodings, in input order, each part
      numbered from 1 and sized by its encoding. */
  lemma BatchRequestShape(env: Env, sendEndpoint: string, batchEndpoint: string, tp: TokenProvider,
                          messages: seq<Message>, dryRun: bool, orders: seq<seq<string>>)
    requires OrdersFit(Parts(sendEndpoint, messages, dryRun), orders)
    requires BatchRequest(env, sendEndpoint, batchEndpoint, tp, messages, dryRun, orders).Ok?
    ensures var req := BatchRequest(env, sendEndpoint, batchEndpoint, tp, messages, dryRun, orders).value;
      && req.verb == MethodPost && req.url == batchEndpoint
      && env.token(tp).Done?
      && GetHeader(req.header, "Authorization") == "Bearer " + env.token(tp).value
      && ParseMediaType(GetHeader(req.header, "Content-Type")) == Done(map["boundary" := Boundary])
      && var payloads := EncodeAll(env, Parts(sendEndpoint, messages, dryRun), orders);
      && payloads.Done? && req.body == Serialize(Boundary, Framed(payloads.value))
      && (forall i :: 0 <= i < |messages| ==>
            Done(payloads.value[i]) == Encoding(env, PartFor(sendEndpoint, messages[i], dryRun), orders[i]))
  {
    var entity := MultipartEntity(Parts(sendEndpoint, messages, dryRun));
    AuthorizedHeaders(env.token(tp).value, entity.Mime());
    EncodeAllInOrder(env, entity.parts, orders);
  }

  /** A token provider that fails makes assembly fail with its error once every message is
      valid and the envelope and URL are sound. */
  lemma TokenFailureAborts(env: Env, sendEndpoint: string, batchEndpoint: string, tp: TokenProvider,
                           messages: seq<Message>, dryRun: bool, orders: seq<seq<string>>)
    requires OrdersFit(Parts(sendEndpoint, messages, dryRun), orders)
    requires FirstInvalid(env, messages).None?
    requires Body(env, Parts(sendEndpoint, messages, dryRun), orders).Done?
    requires env.parseUrl(batchEndpoint).None?
    requires env.token(tp).Fail?
    ensures BatchRequest(env, sendEndpoint, batchEndpoint, tp, messages, dryRun, orders) == Err(Auth(env.token(tp).cause))
  {
  }

  // ---------------------------------------------------------------------------
  // Decoding the response

  /** newSendResponse: the embedded response of one part. A status other than 200 is a
      failure carrying the status and the body; a 200 is a success carrying `name` as the
      body gives it. */
  function NewSendResponse(env: Env, payload: string): (r: Result<SendResponse>)
    ensures env.readResponse(payload).Fail? ==> r == Err(PartBody(env.readResponse(payload).cause))
    ensures r.Ok? <==>
      && env.readResponse(payload).Done?
      && var hr := env.readResponse(payload).value;
      && env.readBody(hr.body).Done?
      && (hr.statusCode == StatusOK ==> env.unmarshalName(env.readBody(hr.body).value).Done?)
  {
    match env.readResponse(payload)
    case Fail(cause) => Err(PartBody(cause))
    case Done(hr) =>
      match env.readBody(hr.body)
      case Fail(cause) => Err(Library(cause))
      case Done(b) =>
        if hr.statusCode != StatusOK then Ok(SendResponse(false, "", hr.statusCode, b))
        else
          match env.unmarshalName(b)
          case Fail(cause) => Err(Library(cause))
          case Done(name) => Ok(SendResponse(true, name, 0, ""))
  }

  /** An outcome is a success exactly when its embedded status is 200; a failure carries
      that status and the body read; a success carries the unmarshalled name unchanged. */
  lemma NewSendResponseClassifies(env: Env, payload: string)
    requires NewSendResponse(env, payload).Ok?
    ensures var sr := NewSendResponse(env, payload).value;
      && env.readResponse(payload).Done?
      && var hr := env.readResponse(payload).value;
      && env.readBody(hr.body).Done?
      && (sr.success <==> hr.statusCode == StatusOK)
      && (!sr.success ==> sr.errorCode == hr.statusCode && sr.errorBody == env.readBody(hr.body).value)
      && (sr.success ==> env.unmarshalName(env.readBody(hr.body).value) == Done(sr.messageID))
  {
  }

  /** A batch success carries the name exactly as the body gives it, where a single send
      keeps only what follows its last '/': for "projects/p/messages/123" the batch
      outcome's ID is the whole name, not "123". */
  lemma BatchKeepsRawName(env: Env, payload: string, body: string, b: string, name: string)
    requires env.readResponse(payload) == Done(Embedded(StatusOK, body))
    requires env.readBody(body) == Done(b) && env.unmarshalName(b) == Done(name)
    requires '/' in name
    ensures NewSendResponse(env, payload) == Ok(SendResponse(true, name, 0, ""))
    ensures NewSendResponse(env, payload).value.messageID != MessageIdOf(name)
  {
  }

  /** The outcomes of the parts from `s` on, the reader being at its first part when
      `first` holds; the first error of the reader or of a part ends the walk. */
  function DecodeFrom(env: Env, b: string, s: string, first: bool): Result<seq<SendResponse>>
    decreases |s|, if first then 1 else 0
  {
    match NextPart(b, s, first)
    case End => Ok([])
    case Broken(reason) => Err(Multipart(reason))
    case Next(p, rest) =>
      match NewSendResponse(env, p.payload)
      case Err(e) => Err(e)
      case Ok(sr) =>
        match DecodeFrom(env, b, rest, false)
        case Err(e) => Err(e)
        case Ok(srs) => Ok([sr] + srs)
  }

  /** The number of successes among the outcomes. */
  function Successes(rs: seq<SendResponse>): nat {
    if rs == [] then 0 else Successes(rs[..|rs| - 1]) + (if rs[|rs| - 1].success then 1 else 0)
  }

  /** The number of failures among the outcomes. */
  function Failures(rs: seq<SendResponse>): nat {
    if rs == [] then 0 else Failures(rs[..|rs| - 1]) + (if rs[|rs| - 1].success then 0 else 1)
  }

  /** The response newBatchResponse builds from the outcomes. */
  function Summary(rs: seq<SendResponse>): MulticastResponse {
    MulticastResponse(Successes(rs), |rs| - Successes(rs), rs)
  }

  /** The boundary newBatchResponse reads with: the parameter, or "" when it is absent. */
  function BoundaryOf(params: map<string, string>): string {
    if "boundary" in params then params["boundary"] else ""
  }

  /** What newBatchResponse returns for the outer response. */
  function ReadBatch(env: Env, resp: Response): Result<MulticastResponse> {
    match ParseMediaType(GetHeader(resp.header, "Content-Type"))
    case Fail(cause) => Err(ContentType(cause))
    case Done(params) =>
      match DecodeFrom(env, BoundaryOf(params), resp.body, true)
      case Err(e) => Err(e)
      case Ok(rs) => Ok(Summary(rs))
  }

  function Prepended(rs: seq<SendResponse>, r: Result<seq<SendResponse>>): Result<seq<SendResponse>> {
    match r
    case Err(e) => Err(e)
    case Ok(more) => Ok(rs + more)
  }

  lemma ReadBatchOf(env: Env, resp: Response, params: map<string, string>, decoded: Result<seq<SendResponse>>)
    requires ParseMediaType(GetHeader(resp.header, "Content-Type")) == Done(params)
    requires DecodeFrom(env, BoundaryOf(params), resp.body, true) == decoded
    ensures decoded.Err? ==> ReadBatch(env, resp) == Err(decoded.error)
    ensures decoded.Ok? ==> ReadBatch(env, resp) == Ok(Summary(decoded.value))
  {
  }

  /** newBatchResponse: parse the Content-Type, then read part after part, counting the
      successes, until the reader reports the end or an error. */
  method NewBatchResponse(env: Env, resp: Response) returns (r: Result<MulticastResponse>)
    ensures r == ReadBatch(env, resp)
  {
    var params := ParseMediaType(GetHeader(resp.header, "Content-Type"));
    if params.Fail? {
      return Err(ContentType(params.cause));
    }
    var boundary := BoundaryOf(params.value);
    var rest := resp.body;
    var first := true;
    var responses: seq<SendResponse> := [];
    var successCount := 0;
    PrependedNothing(DecodeFrom(env, boundary, rest, first));
    while true
      invariant DecodeFrom(env, boundary, resp.body, true) == Prepended(responses, DecodeFrom(env, boundary, rest, first))
      invariant successCount == Successes(responses)
      decreases |rest|, if first then 1 else 0
    {
      var step := NextPart(boundary, rest, first);
      DecodeHalt(env, boundary, resp.body, responses, rest, first);
      if step.End? {
        break;
      }
      if step.Broken? {
        ReadBatchOf(env, resp, params.value, Err(Multipart(step.reason)));
        return Err(Multipart(step.reason));
      }
      DecodeAdvance(env, boundary, resp.body, responses, rest, first, step.part, step.rest);
      var sr := NewSendResponse(env, step.part.payload);
      if sr.Err? {
        ReadBatchOf(env, resp, params.value, Err(sr.error));
        return Err(sr.error);
      }
      SuccessesSnoc(responses, sr.value);
      responses := responses + [sr.value];
      if sr.value.success {
        successCount := successCount + 1;
      }
      rest, first := step.rest, false;
    }
    ReadBatchOf(env, resp, params.value, Ok(responses));
    SummaryOf(responses, successCount);
    r := Ok(MulticastResponse(successCount, |responses| - successCount, responses));
  }

  /** The counters kept while reading make up the summary of the outcomes. */
  lemma SummaryOf(rs: seq<SendResponse>, successCount: nat)
    requires successCount == Successes(rs)
    ensures MulticastResponse(successCount, |rs| - successCount, rs) == Summary(rs)
  {
  }

  /** The counters: successes plus failures is the number of outcomes, and the failure
      count is the number of outcomes that are not successes. */
  lemma {:induction false} CountsAddUp(rs: seq<SendResponse>)
    ensures Successes(rs) + Failures(rs) == |rs|
    decreases |rs|
  {
    if rs != [] {
      CountsAddUp(rs[..|rs| - 1]);
    }
  }

  /** The walk so far has read `rs`; the reader stops at `s`: the outcome is `rs` or the
      reader's error. */
  lemma DecodeHalt(env: Env, b: string, whole: string, rs: seq<SendResponse>, s: string, first: bool)
    requires DecodeFrom(env, b, whole, true) == Prepended(rs, DecodeFrom(env, b, s, first))
    ensures NextPart(b, s, first).End? ==> DecodeFrom(env, b, whole, true) == Ok(rs)
    ensures NextPart(b, s, first).Broken? ==> DecodeFrom(env, b, whole, true) == Err(Multipart(NextPart(b, s, first).reason))
  {
    DecodeFromStop(env, b, s, first);
    assert rs + [] == rs;
  }

  /** The walk so far has read `rs` and the reader yields part `p`: its outcome is added,
      or its error ends the walk. */
  lemma DecodeAdvance(env: Env, b: string, whole: string, rs: seq<SendResponse>, s: string, first: bool, p: MimePart, rest: string)
    requires DecodeFrom(env, b, whole, true) == Prepended(rs, DecodeFrom(env, b, s, first))
    requires NextPart(b, s, first) == Next(p, rest)
    ensures NewSendResponse(env, p.payload).Err? ==> DecodeFrom(env, b, whole, true) == Err(NewSendResponse(env, p.payload).error)
    ensures NewSendResponse(env, p.payload).Ok? ==>
      DecodeFrom(env, b, whole, true) == Prepended(rs + [NewSendResponse(env, p.payload).value], DecodeFrom(env, b, rest, false))
  {
    DecodeFromStep(env, b, s, first, p, rest);
    if NewSendResponse(env, p.payload).Ok? {
      PrependedTwice(rs, [NewSendResponse(env, p.payload).value], DecodeFrom(env, b, rest, false));
    }
  }

  lemma DecodeFromStep(env: Env, b: string, s: string, first: bool, p: MimePart, rest: string)
    requires NextPart(b, s, first) == Next(p, rest)
    ensures NewSendResponse(env, p.payload).Err? ==> DecodeFrom(env, b, s, first) == Err(NewSendResponse(env, p.payload).error)
    ensures NewSendResponse(env, p.payload).Ok? ==>
      DecodeFrom(env, b, s, first) == Prepended([NewSendResponse(env, p.payload).value], DecodeFrom(env, b, rest, false))
  {
  }

  lemma PrependedNothing(r: Result<seq<SendResponse>>)
    ensures Prepended([], r) == r
    ensures r.Ok? ==> Prepended(r.value, Ok([])) == r
  {
    if r.Ok? {
      assert [] + r.value == r.value;
      assert r.value + [] == r.value;
    }
  }

  /** The reader at the end, or failing. */
  lemma DecodeFromStop(env: Env, b: string, s: string, first: bool)
    ensures NextPart(b, s, first).End? ==> DecodeFrom(env, b, s, first) == Ok([])
    ensures NextPart(b, s, first).Broken? ==> DecodeFrom(env, b, s, first) == Err(Multipart(NextPart(b, s, first).reason))
  {
  }

  lemma SuccessesSnoc(rs: seq<SendResponse>, r: SendResponse)
    ensures Successes(rs + [r]) == Successes(rs) + (if r.success then 1 else 0)
  {
    assert (rs + [r])[..|rs|] == rs;
  }

  lemma PrependedTwice(xs: seq<SendResponse>, ys: seq<SendResponse>, r: Result<seq<SendResponse>>)
    ensures Prepended(xs, Prepended(ys, r)) == Prepended(xs + ys, r)
  {
    if r.Ok? {
      assert xs + (ys + r.value) == (xs + ys) + r.value;
    }
  }

  /** The outcomes are those of the parts the reader yields, one per part and in part
      order. */
  lemma {:induction false} DecodeFromFollowsParts(env: Env, b: string, s: string, first: bool)
    requires DecodeFrom(env, b, s, first).Ok?
    ensures ReadAll(b, s, first).Done?
    ensures |DecodeFrom(env, b, s, first).value| == |ReadAll(b, s, first).value|
    ensures forall i :: 0 <= i < |ReadAll(b, s, first).value| ==>
      NewSendResponse(env, ReadAll(b, s, first).value[i].payload) == Ok(DecodeFrom(env, b, s, first).value[i])
    decreases |s|, if first then 1 else 0
  {
    var step := NextPart(b, s, first);
    if step.Next? {
      DecodeFromStep(env, b, s, first, step.part, step.rest);
      DecodeFromFollowsParts(env, b, step.rest, false);
      var ps := ReadAll(b, step.rest, false).value;
      var rs := DecodeFrom(env, b, step.rest, false).value;
      var sr := NewSendResponse(env, step.part.payload).value;
      ReadAllStep(b, s, first, step.part, step.rest);
      assert DecodeFrom(env, b, s, first) == Ok([sr] + rs);
      ConsAligned(env, step.part, ps, sr, rs);
    }
  }

  lemma ReadAllStep(b: string, s: string, first: bool, p: MimePart, rest: string)
    requires NextPart(b, s, first) == Next(p, rest) && ReadAll(b, rest, false).Done?
    ensures ReadAll(b, s, first) == Done([p] + ReadAll(b, rest, false).value)
  {
  }

  /** Outcomes that match their parts still match with one more of each in front. */
  lemma ConsAligned(env: Env, p: MimePart, ps: seq<MimePart>, sr: SendResponse, rs: seq<SendResponse>)
    requires NewSendResponse(env, p.payload) == Ok(sr) && |ps| == |rs|
    requires forall i :: 0 <= i < |ps| ==> NewSendResponse(env, ps[i].payload) == Ok(rs[i])
    ensures forall i :: 0 <= i < |ps| + 1 ==> NewSendResponse(env, ([p] + ps)[i].payload) == Ok(([sr] + rs)[i])
  {
    forall i | 0 <= i < |ps| + 1
      ensures NewSendResponse(env, ([p] + ps)[i].payload) == Ok(([sr] + rs)[i])
    {
      if i > 0 {
        assert ([p] + ps)[i] == ps[i - 1] && ([sr] + rs)[i] == rs[i - 1];
      }
    }
  }

  /** Decoding succeeds whenever the reader reaches the end and every part holds a
      readable response. */
  lemma {:induction false} DecodeFromSucceeds(env: Env, b: string, s: string, first: bool)
    requires ReadAll(b, s, first).Done?
    requires forall i :: 0 <= i < |ReadAll(b, s, first).value| ==> NewSendResponse(env, ReadAll(b, s, first).value[i].payload).Ok?
    ensures DecodeFrom(env, b, s, first).Ok?
    decreases |s|, if first then 1 else 0
  {
    var step := NextPart(b, s, first);
    if step.Next? {
      var ps := ReadAll(b, step.rest, false).value;
      assert ReadAll(b, s, first).value == [step.part] + ps;
      assert ReadAll(b, s, first).value[0] == step.part;
      assert forall i :: 0 <= i < |ps| ==> ReadAll(b, s, first).value[i + 1] == ps[i];
      DecodeFromSucceeds(env, b, step.rest, false);
      DecodeFromStep(env, b, s, first, step.part, step.rest);
    }
  }

  /** newBatchResponse's result: one outcome per part of the body, in part order, each
      the outcome of its part; SuccessCount counts the successes and FailureCount the
      failures. */
  lemma ReadBatchCounts(env: Env, resp: Response)
    requires ReadBatch(env, resp).Ok?
    ensures var mr := ReadBatch(env, resp).value;
      && ParseMediaType(GetHeader(resp.header, "Content-Type")).Done?
      && var parts := ReadAll(BoundaryOf(ParseMediaType(GetHeader(resp.header, "Content-Type")).value), resp.body, true);
      && parts.Done? && |mr.responses| == |parts.value|
      && (forall i :: 0 <= i < |parts.value| ==> NewSendResponse(env, parts.value[i].payload) == Ok(mr.responses[i]))
      && mr.successCount == Successes(mr.responses)
      && mr.failureCount == Failures(mr.responses)
      && mr.successCount + mr.failureCount == |mr.responses|
  {
    var params := ParseMediaType(GetHeader(resp.header, "Content-Type")).value;
    DecodeFromFollowsParts(env, BoundaryOf(params), resp.body, true);
    CountsAddUp(ReadBatch(env, resp).value.responses);
  }

  /** A response whose Content-Type names boundary b and whose body is parts written with b
      that do not contain its delimiter decodes to one outcome per part, in order, as long
      as each part holds a readable response. */
  lemma ReadBatchRoundTrip(env: Env, resp: Response, b: string, ps: seq<MimePart>)
    requires ParseMediaType(GetHeader(resp.header, "Content-Type")) == Done(map["boundary" := b])
    requires b != "" && resp.body == Serialize(b, ps)
    requires forall i :: 0 <= i < |ps| ==> Delimited(b, ps[i])
    requires forall i :: 0 <= i < |ps| ==> NewSendResponse(env, ps[i].payload).Ok?
    ensures ReadBatch(env, resp).Ok?
    ensures var mr := ReadBatch(env, resp).value;
      |mr.responses| == |ps| && forall i :: 0 <= i < |ps| ==> Ok(mr.responses[i]) == NewSendResponse(env, ps[i].payload)
  {
    EnvelopeRoundTrip(b, ps);
    assert BoundaryOf(map["boundary" := b]) == b;
    DecodeFromSucceeds(env, b, resp.body, true);
    DecodeFromFollowsParts(env, b, resp.body, true);
  }

  /** A bad Content-Type aborts decoding with its parse error. */
  lemma ReadBatchBadContentType(env: Env, resp: Response)
    requires ParseMediaType(GetHeader(resp.header, "Content-Type")).Fail?
    ensures ReadBatch(env, resp) == Err(ContentType(ParseMediaType(GetHeader(resp.header, "Content-Type")).cause))
  {
  }

  // ---------------------------------------------------------------------------
  // Sending

  /** The outcome of the outer exchange: a transport error, an HttpError for a status
      other than 200, or the decoded response. */
  function Exchanged(env: Env, req: Request, e: Exchange): Result<MulticastResponse> {
    match e
    case Failed(cause) => Err(Transport(cause))
    case Answered(resp) =>
      if resp.statusCode != StatusOK then
        Err(Status(HttpError(env.dumpRequest(req), env.dumpResponse(resp), StatusErrorText(resp.statusCode, resp.status))))
      else ReadBatch(env, resp)
  }

  /** What sendBatch returns once the guards have passed. */
  function SentBatch(env: Env, sendEndpoint: string, batchEndpoint: string, tp: TokenProvider, client: HttpClient,
                     messages: seq<Message>, dryRun: bool, orders: seq<seq<string>>): Result<MulticastResponse>
    requires OrdersFit(Parts(sendEndpoint, messages, dryRun), orders)
  {
    match BatchRequest(env, sendEndpoint, batchEndpoint, tp, messages, dryRun, orders)
    case Err(e) => Err(e)
    case Ok(req) => Exchanged(env, req, env.exchange(client, req))
  }

  /** sendBatch: refuse an empty batch and one of more than MaxMessages messages before any
      request is built; otherwise assemble the request, send it through the client's
      transport and decode the answer. */
  method SendBatch(env: Env, c: Client, messages: seq<Message>, dryRun: bool)
    returns (r: Result<MulticastResponse>, ghost orders: seq<seq<string>>)
    ensures |messages| == 0 ==> r == Err(NoMessages)
    ensures |messages| > MaxMessages ==> r == Err(TooManyMessages)
    ensures 0 < |messages| <= MaxMessages ==>
      && OrdersFit(Parts(c.sendEndpoint, messages, dryRun), orders)
      && r == SentBatch(env, c.sendEndpoint, c.batchEndpoint, c.tokenProvider, c.client, messages, dryRun, orders)
  {
    orders := [];
    if |messages| == 0 {
      return Err(NoMessages), orders;
    }
    if |messages| > MaxMessages {
      return Err(TooManyMessages), orders;
    }
    var request;
    request, orders := NewBatchRequest(env, c, messages, dryRun);
    if request.Err? {
      return Err(request.error), orders;
    }
    var resp := env.exchange(c.client, request.value);
    if resp.Failed? {
      return Err(Transport(resp.cause)), orders;
    }
    if resp.response.statusCode != StatusOK {
      var requestBytes := env.dumpRequest(request.value);
      var responseBytes := env.dumpResponse(resp.response);
      var text := StatusErrorText(resp.response.statusCode, resp.response.status);
      return Err(Status(HttpError(requestBytes, responseBytes, text))), orders;
    }
    r := NewBatchResponse(env, resp.response);
  }

  /** Any outer status other than 200 yields an HttpError carrying both dumps and the
      "<code> error: <status>" text, and no response; below 500 and from 500 on alike. */
  lemma OuterStatusIsError(env: Env, req: Request, resp: Response)
    requires resp.statusCode != StatusOK
    ensures Exchanged(env, req, Answered(resp)).Err?
    ensures var e := Exchanged(env, req, Answered(resp)).error;
      && e == Status(HttpError(env.dumpRequest(req), env.dumpResponse(resp), StatusErrorText(resp.statusCode, resp.status)))
      && ErrorText(e) == SignedDecimal(resp.statusCode) + " error: " + resp.status
  {
    StatusErrorTextIsStatusLine(resp.statusCode, resp.status, env.dumpRequest(req), env.dumpResponse(resp));
  }

  /** A batch with an invalid message never reaches the transport: the outcome is the same
      whatever the transport and the token provider would do. */
  lemma InvalidBatchNeverSent(env: Env, sendEndpoint: string, batchEndpoint: string, tp: TokenProvider, client: HttpClient,
                              messages: seq<Message>, dryRun: bool, orders: seq<seq<string>>,
                              exchange: (HttpClient, Request) -> Exchange, token: TokenProvider -> Attempt<string>)
    requires OrdersFit(Parts(sendEndpoint, messages, dryRun), orders)
    requires FirstInvalid(env, messages).Some?
    ensures var k := FirstInvalid(env, messages).value;
      && SentBatch(env, sendEndpoint, batchEndpoint, tp, client, messages, dryRun, orders)
         == Err(InvalidMessage(k, env.validate(messages[k]).value))
      && SentBatch(env.(exchange := exchange, token := token), sendEndpoint, batchEndpoint, tp, client, messages, dryRun, orders)
         == SentBatch(env, sendEndpoint, batchEndpoint, tp, client, messages, dryRun, orders)
  {
    var other := env.(exchange := exchange, token := token);
    assert FirstInvalid(other, messages) == FirstInvalid(env, messages);
  }

  /** A batch is sent through the client's transport: the request the transport receives
      is the assembled one, and a 200 answer is decoded. */
  lemma SentThroughClient(env: Env, sendEndpoint: string, batchEndpoint: string, tp: TokenProvider, client: HttpClient,
                          messages: seq<Message>, dryRun: bool, orders: seq<seq<string>>)
    requires OrdersFit(Parts(sendEndpoint, messages, dryRun), orders)
    requires BatchRequest(env, sendEndpoint, batchEndpoint, tp, messages, dryRun, orders).Ok?
    ensures var req := BatchRequest(env, sendEndpoint, batchEndpoint, tp, messages, dryRun, orders).value;
      && (env.exchange(client, req).Failed? ==>
            SentBatch(env, sendEndpoint, batchEndpoint, tp, client, messages, dryRun, orders) == Err(Transport(env.exchange(client, req).cause)))
      && (env.exchange(client, req).Answered? && env.exchange(client, req).response.statusCode == StatusOK ==>
            SentBatch(env, sendEndpoint, batchEndpoint, tp, client, messages, dryRun, orders) == ReadBatch(env, env.exchange(client, req).response))
  {
  }

  /** SendMulticast: the multicast message fanned out to its tokens, then sent as a batch;
      `messages` is the fan-out. */
  method SendMulticast(env: Env, c: Client, mm: Option<MulticastMessage>, dryRun: bool)
    returns (r: Result<MulticastResponse>, ghost messages: seq<Message>, ghost orders: seq<seq<string>>)
    ensures mm.None? ==> r == Err(NilMulticast)
    ensures mm.Some? && |mm.value.tokens| == 0 ==> r == Err(NoTokens)
    ensures mm.Some? && |mm.value.tokens| > MaxMessages ==> r == Err(TooManyTokens)
    ensures mm.Some? && 0 < |mm.value.tokens| <= MaxMessages ==>
      && |messages| == |mm.value.tokens|
      && (forall i :: 0 <= i < |messages| ==> IsAddressedCopy(mm.value.message, mm.value.tokens[i], messages[i]))
      && OrdersFit(Parts(c.sendEndpoint, messages, dryRun), orders)
      && r == SentBatch(env, c.sendEndpoint, c.batchEndpoint, c.tokenProvider, c.client, messages, dryRun, orders)
  {
    messages, orders := [], [];
    var fanned := ToMessages(mm);
    if fanned.Err? {
      return Err(fanned.error), messages, orders;
    }
    messages := fanned.value;
    r, orders := SendBatch(env, c, fanned.value, dryRun);
  }
}
