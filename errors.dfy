/** The errors the client reports, with the text Go's Error() gives each of them,
    and the text of the error built for an outer HTTP status other than 200. */
module Errors {
  import opened Wrappers
  import opened Text

  /** The most messages (or tokens) one batch may carry. */
  const MaxMessages: nat := 500

  /** HttpError: the diagnostic dumps of the exchange and the wrapped error's text. */
  datatype HttpError = HttpError(requestDump: string, responseDump: string, err: string) {
    /** HttpError.Error(): the wrapped error's text and nothing else. */
    function Error(): string {
      err
    }
  }

  datatype Error =
    | NilMulticast
    | NoTokens
    | TooManyTokens
    | NoMessages
    | TooManyMessages
    | InvalidMessage(index: nat, cause: string)
    | Invalid(cause: string)       // Message.Validate's own error, returned as is by Send
    | Library(cause: string)       // a JSON, URL or HTTP wire routine of the standard library failed
    | Auth(cause: string)          // the token provider failed
    | Credentials(cause: string)   // the token provider could not be created
    | Transport(cause: string)     // the HTTP client could not perform the exchange
    | Status(http: HttpError)      // the outer exchange answered with a status other than 200
    | ContentType(cause: string)   // the response's Content-Type did not parse
    | Multipart(cause: string)     // the multipart reader failed
    | PartBody(cause: string)      // a part did not hold an HTTP response
    | InvalidEndpoint
    | InvalidBatchEndpoint

  datatype Result<+T> = Ok(value: T) | Err(error: Error)

  /** The text of each error as the client's Error() method returns it. */
  function ErrorText(e: Error): (r: string)
    ensures e.InvalidMessage? ==> IsPrefix("invalid message at index ", r)
    ensures e.ContentType? ==> IsPrefix("error parsing content-type header: ", r)
    ensures e.PartBody? ==> IsPrefix("error parsing multipart body: ", r)
    ensures e.InvalidMessage? || e.ContentType? || e.PartBody? ==>
      |e.cause| <= |r| && r[|r| - |e.cause|..] == e.cause
  {
    match e
    case NilMulticast => "message must not be nil"
    case NoTokens => "tokens must not be nil or empty"
    case TooManyTokens => "tokens must not contain more than " + Decimal(MaxMessages) + " elements"
    case NoMessages => "messages must not be nil or empty"
    case TooManyMessages => "messages must not contain more than " + Decimal(MaxMessages) + " elements"
    case InvalidMessage(index, cause) => "invalid message at index " + Decimal(index) + ": " + cause
    case Invalid(cause) => cause
    case Library(cause) => cause
    case Auth(cause) => cause
    case Credentials(cause) => cause
    case Transport(cause) => cause
    case Status(http) => http.Error()
    case ContentType(cause) => "error parsing content-type header: " + cause
    case Multipart(cause) => cause
    case PartBody(cause) => "error parsing multipart body: " + cause
    case InvalidEndpoint => "invalid endpoint"
    case InvalidBatchEndpoint => "invalid batchEndpoint"
  }

  /** An invalid message's error names its index, so the index can be read back from the text. */
  lemma InvalidMessageTextNamesIndex(index: nat, cause: string)
    ensures var t := ErrorText(InvalidMessage(index, cause));
      var prefix := "invalid message at index ";
      var digits := Decimal(index);
      IsPrefix(prefix, t) && t[|prefix|..|prefix| + |digits|] == digits
      && ParseDecimal(t[|prefix|..|prefix| + |digits|]) == Some(index)
  {
    DecimalRoundTrip(index);
  }

  /** An HttpError's text is the "<code> error: <status>" line of the failed exchange. */
  lemma StatusErrorTextIsStatusLine(code: int, status: string, requestDump: string, responseDump: string)
    ensures ErrorText(Status(HttpError(requestDump, responseDump, StatusErrorText(code, status))))
      == SignedDecimal(code) + " error: " + status
  {
  }

  // ---------------------------------------------------------------------------
  // The error text for an outer status other than 200

  /** The evidently intended text, fmt.Errorf("%d error: %s", code, status). */
  function StatusErrorText(code: int, status: string): string {
    SignedDecimal(code) + " error: " + status
  }

  /** The status text can be read back from the error's text, whatever characters it
      holds: it is everything after the code and " error: ". */
  lemma StatusErrorTextKeepsStatus(code: int, status: string)
    ensures var t := StatusErrorText(code, status);
      var head := SignedDecimal(code) + " error: ";
      IsPrefix(head, t) && t[|head|..] == status
  {
    var head := SignedDecimal(code) + " error: ";
    assert StatusErrorText(code, status) == head + status;
  }

  predicate IsLetter(c: char) {
    ('a' <= c <= 'z') || ('A' <= c <= 'Z')
  }

  /** fmt.Errorf(s) with no arguments: "%%" stands for '%', a verb letter with no argument
      renders as "%!v(MISSING)" and a '%' at the end as "%!(NOVERB)". Flags, widths and
      precisions after a '%' are not modelled (None). */
  function FormatWithoutArgs(s: string): Option<string>
    decreases |s|
  {
    if |s| == 0 then Some("")
    else if s[0] != '%' then Prefixed([s[0]], FormatWithoutArgs(s[1..]))
    else if |s| == 1 then Some("%!(NOVERB)")
    else if s[1] == '%' then Prefixed("%", FormatWithoutArgs(s[2..]))
    else if IsLetter(s[1]) then Prefixed("%!" + [s[1]] + "(MISSING)", FormatWithoutArgs(s[2..]))
    else None
  }

  function Prefixed(p: string, o: Option<string>): Option<string> {
    match o
    case Some(t) => Some(p + t)
    case None => None
  }

  /** The text as written at message_batch.go and client.go: for a status of 500 or more the
      already formatted line is used as a format string once more. */
  function StatusErrorTextAsWritten(code: int, status: string): Option<string> {
    var line := StatusErrorText(code, status);
    if code >= 500 then FormatWithoutArgs(line) else Some(line)
  }

  lemma {:induction false} FormatWithoutArgsKeepsPlainText(s: string)
    requires '%' !in s
    ensures FormatWithoutArgs(s) == Some(s)
    decreases |s|
  {
    if |s| > 0 {
      assert s[0] in s;
      assert forall c :: c in s[1..] ==> c in s;
      FormatWithoutArgsKeepsPlainText(s[1..]);
      assert [s[0]] + s[1..] == s;
    }
  }

  lemma {:induction false} FormatWithoutArgsTrailingPercent(s: string)
    requires '%' !in s
    ensures FormatWithoutArgs(s + "%") == Some(s + "%!(NOVERB)")
    decreases |s|
  {
    if |s| > 0 {
      assert s[0] in s;
      assert forall c :: c in s[1..] ==> c in s;
      assert (s + "%")[1..] == s[1..] + "%";
      FormatWithoutArgsTrailingPercent(s[1..]);
      assert [s[0]] + (s[1..] + "%!(NOVERB)") == s + "%!(NOVERB)";
    } else {
      assert s + "%" == "%";
      assert s + "%!(NOVERB)" == "%!(NOVERB)";
    }
  }

  /** Where the status text holds no '%', both branches build the same text. */
  lemma StatusErrorTextAsWrittenWithoutPercent(code: int, status: string)
    requires '%' !in status
    ensures StatusErrorTextAsWritten(code, status) == Some(StatusErrorText(code, status))
  {
    var line := StatusErrorText(code, status);
    if code >= 500 {
      DecimalHasNo(code, '%');
      assert '%' !in SignedDecimal(code);
      assert '%' !in line;
      FormatWithoutArgsKeepsPlainText(line);
    }
  }

  /** A status of 500 or more whose text ends in '%' gets a "%!(NOVERB)" instead of its '%'. */
  lemma StatusErrorTextAsWrittenMangles(code: int, text: string)
    requires code >= 500 && '%' !in text
    ensures StatusErrorTextAsWritten(code, text + "%") == Some(StatusErrorText(code, text) + "%!(NOVERB)")
    ensures StatusErrorTextAsWritten(code, text + "%") != Some(StatusErrorText(code, text + "%"))
  {
    DecimalHasNo(code, '%');
    var line := StatusErrorText(code, text);
    assert '%' !in line;
    assert StatusErrorText(code, text + "%") == line + "%";
    FormatWithoutArgsTrailingPercent(line);
    var bad := line + "%!(NOVERB)";
    assert bad[|line| + 1] == '!';
    assert |bad| != |line + "%"|;
  }

  /** The concrete case: status 503 with the text "503 Over 100%". */
  lemma StatusErrorTextAsWrittenExample()
    ensures StatusErrorTextAsWritten(503, "503 Over 100%") == Some(StatusErrorText(503, "503 Over 100") + "%!(NOVERB)")
    ensures StatusErrorTextAsWritten(503, "503 Over 100%") != Some(StatusErrorText(503, "503 Over 100%"))
  {
    assert "503 Over 100%" == "503 Over 100" + "%";
    StatusErrorTextAsWrittenMangles(503, "503 Over 100");
  }
}
