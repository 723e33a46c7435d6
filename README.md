# go-fcm batching core, modelled in Dafny

This project models the batching path of the `go-fcm` Firebase Cloud Messaging client,
together with the client configuration and the single-send path around it. The batching
path has four stages:

- **Fan-out.** `toMessages` turns one multicast message into one message per
  registration token.
- **Assembly.** `sendBatch` and `newBatchRequest` check the batch size and validate
  every message. They build one embedded send request per message and attach the
  bearer token and the multipart Content-Type.
- **Envelope.** `multipartEntity.Bytes`, `part.writeTo` and `part.bytes` write the
  embedded requests as the parts of one `multipart/mixed` body. The boundary is fixed
  (`__END_OF_PART__`). Each part carries Content-Id, Content-Length, Content-Type and
  Content-Transfer-Encoding headers.
- **Decoding.** `newBatchResponse` and `newSendResponse` read the multipart answer part
  by part. Each part becomes a success carrying the returned `name`, or a failure
  carrying the embedded status and body. The successes and failures are counted.

Around this path the model also covers:

- `NewClient`: its defaults, the send endpoint computed before the options run, and
  the option loop.
- The `WithEndpoints` and `WithHTTPClient` options, as in-place updates of a `Client`
  object.
- `Send` and `send` for a single message: validate before marshalling, token before
  transport, status classification, and the message ID taken from the resource name.
- `HttpError.Error`.

Modules, one or two per concern:

| file | module | what it holds |
|---|---|---|
| `wrappers.dfy` | `Wrappers` | `Option` and `Attempt` (a standard-library result with a text cause) |
| `text.dfy` | `Text` | substring search, `%d` rendering and reading back, blank trimming, canonical header names |
| `http.dfy` | `Http` | `http.Header` as a map from canonical name to values; requests and responses |
| `messages.dfy` | `Messages` | messages, multicast messages and the fan-out |
| `errors.dfy` | `Errors` | the errors the client returns, their texts, and the outer-status error text |
| `multipart.dfy` | `Multipart` | Go's `mime/multipart` writer as a `Writer` class; the reader; `mime.ParseMediaType`; the round trip between them |
| `collaborators.dfy` | `Collaborators` | `Env`, the functions the client calls but does not define |
| `envelope.dfy` | `Envelope` | `part` and `multipartEntity` with their `Bytes`/`WriteTo` methods |
| `clients.dfy` | `Clients` | the `Client` class, the options and `NewClient` |
| `batch.dfy` | `Batch` | `newBatchRequest`, `newBatchResponse`, `newSendResponse`, `sendBatch`, `SendMulticast` |
| `send.dfy` | `Single` | `Send`, `send` and the message-ID extraction |

Each Go routine that works step by step is a Dafny `method` with its loop. These are
the option closures, `NewClient`, the loops of `toMessages` and `newBatchRequest`, the
writer calls of `Bytes`/`writeTo`/`bytes`, the header loop, and the part loop of
`newBatchResponse`. Each such method is proved equal to a specification function of
its inputs (`Configured`, `Encoding`, `Body`, `BatchRequest`, `ReadBatch`,
`SentBatch`, `SendResult`). The lemmas state what the source promises about those
functions.

Collaborators whose code is not part of this model are fields of `Env`, so every
property holds whatever they do:

- `Message.Validate`, `json.Marshal`, `json.Unmarshal` and the JSON decoder;
- `url.Parse` as `http.NewRequest` applies it;
- `Request.Write`, `http.ReadResponse` and `ioutil.ReadAll`;
- the token provider and its constructor;
- `http.Client.Do`;
- the `httputil` dumps.

Go leaves the iteration order of a map unspecified. Each method that ranges over a map
therefore returns the order it took as a ghost out-parameter, and the lemmas hold for
every such order.

The model follows the written code, including where it departs from what the library
documents or evidently intends:

- A batch success keeps the whole `name` from the response body as its message ID. It
  is not stripped to the part after the last `/`, as the single send does
  (`Batch.BatchKeepsRawName`).
- An error while encoding a part is returned as is, without the index of the part
  (message_batch.go:331-333).
- `sendBatch` builds its request with `http.NewRequest`, so the context it is given
  never reaches the exchange (message_batch.go:239).
- `WithEndpoints` tests `endpoint` a second time where it means `batchEndpoint`
  (option.go:18). An empty batch endpoint is therefore accepted and stored, and
  `NewClient` runs the option that way (see "## Findings").

The one exception is the error text for an outer status of 500 or more. The model uses
the intended text there; "## Left out" says where the two differ.

## Model

| member | source | states |
|---|---|---|
| Messages.ToMessagesOf | message_batch.go:41-63 | no tokens and more than 500 tokens are errors; otherwise exactly one message per token, in token order, each with that token and with data, notification, Android, Webpush and APNs copied from the template and no topic or condition |
| Messages.ToMessages | message_batch.go:129-135 | a nil multicast message is an error; otherwise the fan-out of the message, with its errors and guarantees |
| Messages.AddressedCopyIsUnique | message_batch.go:50-60 | the fan-out is determined by the template and the token: two copies addressed alike are equal |
| Errors.ErrorText | message_batch.go:219 | the texts of an invalid message (here), of a Content-Type that does not parse (line 260) and of an unreadable part (line 295) begin with their fixed words and end with the wrapped cause |
| Errors.InvalidMessageTextNamesIndex | message_batch.go:217-220 | the error text of an invalid message starts "invalid message at index " and the index reads back from the digits that follow |
| Errors.StatusErrorTextIsStatusLine | client.go:141-150 | HttpError.Error returns the wrapped error's text, here "<code> error: <status>" |
| Errors.StatusErrorTextKeepsStatus | message_batch.go:167-171 | the corrected outer-status error text always gives back the status text verbatim after "<code> error: " |
| Errors.StatusErrorTextAsWrittenWithoutPercent | message_batch.go:160-171 | the two branches as written build the same text when the status text holds no '%' |
| Errors.StatusErrorTextAsWrittenMangles | message_batch.go:160-165 | as written, a status of 500 or more whose text ends in '%' gets "%!(NOVERB)" in its place, so the text differs from the corrected one |
| Errors.StatusErrorTextAsWrittenExample | client.go:109-115 | status 503 with text "503 Over 100%" renders as "...100%!(NOVERB)" as written |
| Multipart.Writer.constructor | message_batch.go:327-329 | a writer set to a boundary starts with no parts and nothing written |
| Multipart.Writer.CreatePart | message_batch.go:352 | creating a part appends a part with that header and an empty payload, and the buffer stays the framing of the parts so far |
| Multipart.Writer.Write | message_batch.go:357 | writing appends the data to the payload of the last part and to the buffer |
| Multipart.Writer.Close | message_batch.go:336 | closing appends the closing delimiter: the buffer becomes the serialisation of all parts |
| Multipart.EnvelopeRoundTrip | message_batch.go:263-283 | reading a body written with a non-empty boundary gives back every part, headers and payload, in order, when no part contains the delimiter |
| Multipart.MediaTypeAnnouncesBoundary | message_batch.go:258 | a media type followed by "; boundary=b" parses to exactly the parameter boundary=b |
| Http.AuthorizedHeaders | message_batch.go:250-252 | adding the two headers to a fresh request leaves exactly "Bearer <token>" under Authorization and the given Content-Type |
| Collaborators.NewRequest | message_batch.go:239-242 | http.NewRequest fails exactly when the URL does not parse, and otherwise carries the verb, URL and body with an empty header |
| Envelope.EmbeddedHeaderOverrides | message_batch.go:372-376 | the embedded request's Content-Type is the JSON type and its User-Agent empty, whatever the caller's map says; every other caller header is present with a value given for that name; no other header is present |
| Envelope.EmbeddedHeaderOrderFree | message_batch.go:372-374 | when no two caller keys share a canonical name, the map's iteration order does not change the header |
| Envelope.Part.Bytes | message_batch.go:361-384 | part.bytes yields the encoding of the part for the order its header loop took, and that order lists every caller key once; a marshalling or URL error is returned as is, whatever the order |
| Envelope.Part.WriteTo | message_batch.go:340-359 | an encoding error is returned and the writer is untouched; otherwise the writer gains one part with the four framing headers and the encoding as payload |
| Envelope.MultipartEntity.Bytes | message_batch.go:326-338 | the body is the closing-delimited framing of the parts' encodings in order, or the error of the first part that fails; no parts give the closing delimiter alone, and a first part that does not marshal gives its error |
| Envelope.EncodeAllInOrder | message_batch.go:330-334 | the encodings come out one per part in input order, and encoding succeeds exactly when every part encodes |
| Envelope.EncodeAllFirstFailure | message_batch.go:330-334 | the first part that fails decides the error, whatever the later parts are |
| Envelope.FramedHeaders | message_batch.go:346-350 | envelope part i carries Content-Id i+1, the byte length of its payload as Content-Length, application/http and binary, and both numbers read back |
| Envelope.PartHeaderValid | message_batch.go:346-352 | the four framing headers of every part read back unchanged |
| Envelope.BodyReadsBack | message_batch.go:326-338 | a batch body reads back as its framed parts, in order, when no payload contains the delimiter |
| Envelope.MultipartEntity.Mime | message_batch.go:322-324 | the Content-Type of the entity parses to exactly one parameter, the boundary the writer is set to |
| Clients.Client.constructor | client.go:45-51 | a new client has the default endpoints, the default transport, the token provider and no send endpoint yet |
| Clients.Client.WithEndpoints | option.go:12-24 | an empty endpoint is refused and nothing changes; otherwise the FCM endpoint is set, then an empty batch endpoint is refused, else it is set; the project, send endpoint and token provider are untouched |
| Clients.Client.WithEndpointsAsWritten | option.go:12-24 | as written, the only refusal is an empty endpoint; both endpoints are set otherwise, an empty batch endpoint included |
| Clients.Client.WithHTTPClient | option.go:27-32 | never fails and changes only the transport |
| Clients.Client.Apply | client.go:55 | running an option updates the client as the option as written says: WithEndpoints refuses only an empty endpoint, WithHTTPClient never fails |
| Clients.NewClient | client.go:39-61 | a token-provider error is returned first; the send endpoint is built from the default FCM endpoint and the project before any option runs; the client exists exactly when every option as written succeeds, and has the configuration those options produce |
| Clients.ConfiguredOkIffAcceptable | client.go:54-58 | for the options as written and for the corrected ones alike, the options configure a client exactly when each is acceptable: every WithEndpoints has a non-empty endpoint, and, corrected, a non-empty batch endpoint |
| Clients.ConfiguredTakesLastEndpoints | client.go:54-58 | for both folds, the endpoints are those of the last WithEndpoints option, or the starting ones (the defaults, in NewClient) when there is none |
| Clients.ConfiguredTakesLastClient | client.go:54-58 | for both folds, the transport is that of the last WithHTTPClient option, or the starting one (http.DefaultClient, in NewClient) when there is none |
| Clients.ConfiguredStaysFailed | client.go:54-58 | for both folds, once an option fails, later options do not change the outcome |
| Clients.LastEmptyBatchEndpointKept | option.go:14-21 | when the last WithEndpoints has an empty batch endpoint and no endpoint is empty, the options as written configure a client with that FCM endpoint and an empty batch endpoint, where the corrected options fail with "invalid batchEndpoint" |
| Clients.OnlyBatchEndpointRefused | option.go:14-21 | when no endpoint is empty, the corrected options can fail only for an empty batch endpoint |
| Clients.EmptyBatchEndpointAcceptedAsWritten | option.go:17-21 | with an empty batch endpoint the option as written succeeds and stores it, where the corrected option refuses it |
| Batch.FirstInvalid | message_batch.go:217-220 | the index found is that of a refused message with every earlier message accepted; none is found exactly when all are accepted |
| Batch.NewBatchRequest | message_batch.go:211-255 | the assembled request, or error, equals the specification of newBatchRequest for the order the header loops took; the first message Validate refuses gives an error naming its index, whatever the order |
| Batch.InvalidMessageAborts | message_batch.go:217-220 | when message k is the first refused, assembly fails naming k and that message's error, and the result depends only on the messages up to k |
| Batch.PartsAreSendRequests | message_batch.go:212-231 | part i is a POST of message i with the dry-run flag to the send endpoint, and its embedded header is exactly the API format version, the JSON Content-Type and an empty User-Agent |
| Batch.BatchRequestShape | message_batch.go:233-254 | a returned request is a POST to the batch endpoint with "Bearer <token>" and a Content-Type naming the writer's boundary; its body frames the parts' encodings in input order |
| Batch.TokenFailureAborts | message_batch.go:244-248 | a token error is returned and no request is |
| Batch.NewSendResponse | message_batch.go:292-320 | an unreadable embedded response is an error wrapped as a multipart-body error; an outcome is returned exactly when the response and its body are read and, for a 200, the name unmarshals |
| Batch.NewSendResponseClassifies | message_batch.go:292-320 | an outcome is a success exactly when the embedded status is 200; a failure carries the status and the body read; a success carries the unmarshalled name |
| Batch.BatchKeepsRawName | message_batch.go:311-319 | a batch success keeps the whole name as its message ID, unlike the single send |
| Batch.NewBatchResponse | message_batch.go:257-290 | the loop's result equals the specification of newBatchResponse |
| Batch.CountsAddUp | message_batch.go:279-289 | the successes plus the failures are all the outcomes |
| Batch.DecodeFromFollowsParts | message_batch.go:266-283 | successful decoding yields one outcome per part the reader yields, in part order, each the outcome of its part |
| Batch.DecodeFromSucceeds | message_batch.go:266-283 | decoding succeeds when the reader reaches the end and every part holds a readable response |
| Batch.ReadBatchCounts | message_batch.go:257-290 | the outcomes match the parts in order; SuccessCount counts the successes and FailureCount the failures |
| Batch.ReadBatchRoundTrip | message_batch.go:257-290 | a response whose Content-Type names the boundary its body is written with decodes to one outcome per part, in order |
| Batch.ReadBatchBadContentType | message_batch.go:258-261 | a Content-Type that does not parse aborts with its error |
| Batch.SendBatch | message_batch.go:137-175 | an empty batch and one of more than 500 messages are refused before a request is built; otherwise the result is the specification of sendBatch |
| Batch.OuterStatusIsError | message_batch.go:156-172 | an outer status other than 200 yields an HttpError with both dumps and the "<code> error: <status>" text, and no response |
| Batch.InvalidBatchNeverSent | message_batch.go:146-154 | a batch with an invalid message fails the same way whatever the transport and token provider would do |
| Batch.SentThroughClient | message_batch.go:151-174 | the assembled request goes to the client's transport; a transport error is returned; a 200 answer is decoded |
| Batch.SendMulticast | message_batch.go:100-127 | the multicast message's errors come first; otherwise the batch sent is the fan-out |
| Single.MessageIdOf | client.go:133-138 | the ID holds no '/', is a suffix of the name preceded by a '/' when the name has one, and is the whole name otherwise |
| Single.MessageIdOfResourceName | client.go:123-138 | a name "<prefix>/<id>" whose id has no '/' gives back the id |
| Single.SendData | client.go:80-139 | send's result equals its specification: URL, token, transport, status and decoding errors in that order, or the message ID |
| Single.Send | client.go:64-77 | a refused message is returned as its own error before marshalling; a marshalling error next; otherwise send's result |
| Single.TokenBeforeTransport | client.go:87-101 | a token error is returned, and the transport does not affect the outcome |
| Single.SentRequestShape | client.go:82-95 | the transport receives a POST of the data to the send endpoint with exactly the bearer token and the JSON Content-Type |
| Single.SendStatusClassified | client.go:105-138 | a status other than 200 yields an HttpError with both dumps and the status text; a 200 whose body decodes yields the message ID of the name |

## Left out

- The collaborators are functions of `Env` and are not modelled: `Message.Validate`,
  JSON encoding and decoding, URL parsing, `Request.Write`, `http.ReadResponse`,
  `ioutil.ReadAll`, the token provider, `http.Client.Do` and the dumps. Their error
  texts are carried as strings.
- Text is a sequence of characters, one per octet. Content-Length counts characters.
- Header names are canonicalised for ASCII letters only. Go also leaves names with
  invalid characters as they are; that case is not modelled.
- `Multipart.ParseMediaType` takes parameters as `key=value` pairs separated by ';'.
  The following are not modelled: quoted values, RFC 2231 continuations, lower-casing
  of parameter names, and validation of the media type's tokens.
- Multipart.ParseParams: a trailing ';' after the last parameter is refused, where Go ignores it.
  A value holding inner blanks is accepted, where Go refuses it. The media types this
  client writes and reads have neither.
- Multipart.NextPart: a line beginning with the closing delimiter ends the body, whatever follows
  it; Go also demands that only blanks or a line break follow. Preamble text before the
  first delimiter, transport padding after a delimiter and bare-LF line endings are
  refused, where Go accepts them. An empty boundary is an error here.
- Multipart.ReadPart: a part ends at the first "\r\n--" followed by the boundary, whatever comes
  next. Go ends it only where a line break, blanks or "--" follow, so a payload holding
  "\r\n--" and the boundary and then other text is cut short here. The round-trip
  lemmas exclude such payloads.
- Writing to a `bytes.Buffer` never fails in Go, so `Writer.CreatePart` and
  `Writer.Write` have no error path.
- Contexts and cancellation are not modelled. `send` attaches its context to the
  request; `sendBatch` does not.
- `resp.Body.Close` is not modelled, nor is any other release of resources.
- Go `int` is 64-bit and Dafny's is unbounded. The requests hold at most 500 messages.
  The success and failure counts of a response are not bounded by that: they count the
  parts of the answer. Overflow would need more than 2^63 parts, so it is not modelled.
- Batch.SendBatch: for an outer status of 500 or more, the error text is the intended
  `Errors.StatusErrorText`, not the text as written at message_batch.go:164. The two
  differ only when the status text holds a '%' (`Errors.StatusErrorTextAsWrittenWithoutPercent`).
- Batch.OuterStatusIsError: states the intended status text, as SendBatch does; the text as
  written differs from it only when the status text holds a '%'.
- Single.SendData: for a status of 500 or more, the error text is the intended
  `Errors.StatusErrorText`, not the text as written at client.go:113. The two differ
  only when the status text holds a '%' (`Errors.StatusErrorTextAsWrittenWithoutPercent`).
- Single.SendStatusClassified: states the intended status text, as SendData does; the text as
  written differs from it only when the status text holds a '%'.
- A multicast message whose inner `*Message` is nil makes Go panic when it is fanned
  out. Here the template is always present.
- `SendAll`, `SendAllDryRun` and `SendMulticastDryRun` only fix the dry-run flag. They
  are `Batch.SendBatch` and `Batch.SendMulticast` with that flag.
- Errors are values of one `Error` datatype; Go's error wrapping and pointer identity
  are not modelled. Results are values where Go returns pointers.
- The command-line tool `cmd/fcm-send/main.go` is not part of this model.

## Findings

| source | as written | input that shows it | evidently intended | confidence | as-written member | corrected member |
|---|---|---|---|---|---|---|
| option.go:18 | the second check tests `endpoint == ""` again, which the first check already ruled out | `WithEndpoints("https://fcm.example/v1", "")` succeeds and stores an empty batch endpoint | refuse an empty `batchEndpoint` with "invalid batchEndpoint" | high, not executed | Clients.EmptyBatchEndpointAcceptedAsWritten | Clients.Client.WithEndpoints |
| message_batch.go:164 | for a status of 500 or more, the formatted line is passed to `fmt.Errorf` as a format string a second time (also client.go:113) | status 503 with status text "503 Over 100%" gives "503 error: 503 Over 100%!(NOVERB)" | `fmt.Errorf("%d error: %s", code, status)`, as in the other branch | high, not executed | Errors.StatusErrorTextAsWrittenExample | Errors.StatusErrorTextKeepsStatus |
