/** HTTP requests and responses as the client handles them: a header is Go's
    http.Header, a map from the canonical name to the list of values. */
module Http {
  import opened Text

  const MethodPost: string := "POST"
  const StatusOK: int := 200
  const StatusInternalServerError: int := 500

  type Header = map<string, seq<string>>

  /** Header.Set: the canonical name now has exactly this one value. */
  function SetHeader(h: Header, key: string, value: string): Header {
    h[CanonicalKey(key) := [value]]
  }

  /** Header.Add: the value is appended to those already under the canonical name. */
  function AddHeader(h: Header, key: string, value: string): Header {
    var k := CanonicalKey(key);
    h[k := (if k in h then h[k] else []) + [value]]
  }

  /** Header.Get: the first value under the canonical name, or "" when there is none. */
  function GetHeader(h: Header, key: string): string {
    var k := CanonicalKey(key);
    if k in h && |h[k]| > 0 then h[k][0] else ""
  }

  /** The two headers added to an outgoing request: the bearer token, then the Content-Type. */
  function Authorized(h: Header, token: string, contentType: string): Header {
    AddHeader(AddHeader(h, "Authorization", "Bearer " + token), "Content-Type", contentType)
  }

  /** On a request created with an empty header, Authorized leaves exactly the bearer token
      and the Content-Type, each with one value. */
  lemma AuthorizedHeaders(token: string, contentType: string)
    ensures var h := Authorized(map[], token, contentType);
      && h.Keys == {CanonicalKey("Authorization"), CanonicalKey("Content-Type")}
      && h[CanonicalKey("Authorization")] == ["Bearer " + token]
      && h[CanonicalKey("Content-Type")] == [contentType]
      && GetHeader(h, "Authorization") == "Bearer " + token
      && GetHeader(h, "Content-Type") == contentType
  {
    assert |CanonicalKey("Authorization")| != |CanonicalKey("Content-Type")|;
  }

  datatype Request = Request(verb: string, url: string, header: Header, body: string)

  /** A response of the outer exchange: status code, status line text, header, body. */
  datatype Response = Response(statusCode: int, status: string, header: Header, body: string)

  /** The HTTP response embedded in one part of a batch response: its status code and
      its body as yet unread. */
  datatype Embedded = Embedded(statusCode: int, body: string)

  /** What the HTTP client's Do returns: a response, or the error it failed with. */
  datatype Exchange = Answered(response: Response) | Failed(cause: string)
}
