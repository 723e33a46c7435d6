/** The messages the client sends and the fan-out of one multicast message
    into one message per registration token (message_batch.go). */
module Messages {
  import opened Wrappers
  import opened Errors

  /** A sub-message (notification, Android, Webpush or APNs settings), kept as its JSON text. */
  datatype Section = Section(json: string)

  /** The fields of a message that the batching path reads or writes. */
  datatype Message = Message(
    token: string,
    topic: string,
    condition: string,
    data: map<string, string>,
    notification: Option<Section>,
    android: Option<Section>,
    webpush: Option<Section>,
    apns: Option<Section>)

  /** A message addressed to a list of registration tokens. */
  datatype MulticastMessage = MulticastMessage(tokens: seq<string>, message: Message)

  /** The body of one send: the message and the dry-run flag. */
  datatype SendRequest = SendRequest(validateOnly: bool, message: Message)

  /** `m` is the template with its token set to `token`: data, notification, Android,
      Webpush and APNs settings are copied, and no other field is set. */
  predicate IsAddressedCopy(template: Message, token: string, m: Message) {
    && m.token == token
    && m.topic == "" && m.condition == ""
    && m.data == template.data
    && m.notification == template.notification
    && m.android == template.android
    && m.webpush == template.webpush
    && m.apns == template.apns
  }

  /** MulticastMessage.toMessages: one message per token, in token order. */
  method ToMessagesOf(mm: MulticastMessage) returns (r: Result<seq<Message>>)
    ensures |mm.tokens| == 0 ==> r == Err(NoTokens)
    ensures |mm.tokens| > MaxMessages ==> r == Err(TooManyTokens)
    ensures 0 < |mm.tokens| <= MaxMessages ==> r.Ok? && |r.value| == |mm.tokens|
    ensures r.Ok? ==> forall i :: 0 <= i < |r.value| ==> IsAddressedCopy(mm.message, mm.tokens[i], r.value[i])
  {
    if |mm.tokens| == 0 {
      return Err(NoTokens);
    }
    if |mm.tokens| > MaxMessages {
      return Err(TooManyTokens);
    }
    var template := mm.message;
    var messages: seq<Message> := [];
    for i := 0 to |mm.tokens|
      invariant |messages| == i
      invariant forall j :: 0 <= j < i ==> IsAddressedCopy(template, mm.tokens[j], messages[j])
    {
      var temp := Message(mm.tokens[i], "", "", template.data, template.notification,
                          template.android, template.webpush, template.apns);
      messages := messages + [temp];
    }
    r := Ok(messages);
  }

  /** toMessages: a nil multicast message is an error, otherwise its fan-out. */
  method ToMessages(mm: Option<MulticastMessage>) returns (r: Result<seq<Message>>)
    ensures mm.None? ==> r == Err(NilMulticast)
    ensures mm.Some? && |mm.value.tokens| == 0 ==> r == Err(NoTokens)
    ensures mm.Some? && |mm.value.tokens| > MaxMessages ==> r == Err(TooManyTokens)
    ensures mm.Some? && 0 < |mm.value.tokens| <= MaxMessages ==> r.Ok? && |r.value| == |mm.value.tokens|
    ensures r.Ok? ==> mm.Some? && forall i :: 0 <= i < |r.value| ==> IsAddressedCopy(mm.value.message, mm.value.tokens[i], r.value[i])
  {
    if mm.None? {
      return Err(NilMulticast);
    }
    r := ToMessagesOf(mm.value);
  }

  /** Two messages addressed from the same template to the same token are the same message:
      the fan-out is determined by the template and the tokens. */
  lemma AddressedCopyIsUnique(template: Message, token: string, m1: Message, m2: Message)
    requires IsAddressedCopy(template, token, m1) && IsAddressedCopy(template, token, m2)
    ensures m1 == m2
  {
  }
}
