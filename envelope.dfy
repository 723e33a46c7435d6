/** The envelope of a batch (message_batch.go): each embedded request is encoded as a
    raw HTTP/1.1 request whose caller headers are overridden by a JSON Content-Type and
    an empty User-Agent, and the encoded requests are written as the parts of one
    multipart/mixed body with a fixed boundary and per-part Content-Id, Content-Length,
    Content-Type and Content-Transfer-Encoding. */
module Envelope {
  import opened Wrappers
  import opened Text
  import opened Http
  import opened Multipart
  import opened Messages
  import opened Collaborators

  /** multipartBoundary: the boundary every batch body is written with. */
  const Boundary: string := "__END_OF_PART__"

  /** The Content-Type every embedded request carries. */
  const JsonContentType: string := "application/json; charset=UTF-8"

  /** The canonical names of the two headers forced on every embedded request. */
  const ContentTypeKey: string := CanonicalKey("Content-Type")
  const UserAgentKey: string := CanonicalKey("User-Agent")

  /** Every key of `order` is one of the caller's headers. */
  predicate Visits(order: seq<string>, headers: map<string, string>) {
    forall i :: 0 <= i < |order| ==> order[i] in headers
  }

  /** `order` lists each key of `headers` exactly once: an order in which `range` may
      visit the map (Go leaves that order unspecified). */
  predicate IsEnumeration(order: seq<string>, headers: map<string, string>) {
    && Visits(order, headers)
    && (forall k :: k in headers ==> k in order)
    && (forall i, j :: 0 <= i < j < |order| ==> order[i] != order[j])
  }

  /** Header.Set of each caller header, in the order visited. */
  function SetAll(h: Header, headers: map<string, string>, order: seq<string>): Header
    requires Visits(order, headers)
  {
    if order == [] then h
    else
      var k := order[|order| - 1];
      SetHeader(SetAll(h, headers, order[..|order| - 1]), k, headers[k])
  }

  /** Setting one more caller header. */
  lemma SetAllSnoc(h: Header, headers: map<string, string>, order: seq<string>, key: string)
    requires Visits(order, headers) && key in headers
    ensures Visits(order + [key], headers)
    ensures SetAll(h, headers, order + [key]) == SetHeader(SetAll(h, headers, order), key, headers[key])
  {
    assert (order + [key])[..|order|] == order;
  }

  /** A key not yet visited keeps the visited keys pairwise distinct. */
  lemma DistinctSnoc(order: seq<string>, key: string)
    requires forall i, j :: 0 <= i < j < |order| ==> order[i] != order[j]
    requires key !in order
    ensures forall i, j :: 0 <= i < j < |order + [key]| ==> (order + [key])[i] != (order + [key])[j]
  {
  }

  /** The header of an embedded request: the caller's headers, then Content-Type set to
      JSON and User-Agent set to empty. */
  function EmbeddedHeader(headers: map<string, string>, order: seq<string>): Header
    requires Visits(order, headers)
  {
    SetHeader(SetHeader(SetAll(map[], headers, order), "Content-Type", JsonContentType), "User-Agent", "")
  }

  /** After the caller's headers are set, a name no visited key canonicalises to keeps its
      entry, and a name some visited key canonicalises to holds exactly the value of one
      such key. */
  lemma {:induction false} SetAllAt(h: Header, headers: map<string, string>, order: seq<string>, name: string)
    requires Visits(order, headers)
    ensures (forall i :: 0 <= i < |order| ==> CanonicalKey(order[i]) != name) ==>
      (name in SetAll(h, headers, order) <==> name in h) &&
      (name in h ==> SetAll(h, headers, order)[name] == h[name])
    ensures (exists i :: 0 <= i < |order| && CanonicalKey(order[i]) == name) ==>
      name in SetAll(h, headers, order) &&
      exists i :: 0 <= i < |order| && CanonicalKey(order[i]) == name && SetAll(h, headers, order)[name] == [headers[order[i]]]
    decreases |order|
  {
    if order != [] {
      var n := |order| - 1;
      var init := order[..n];
      assert Visits(init, headers);
      SetAllAt(h, headers, init, name);
      assert forall i :: 0 <= i < n ==> init[i] == order[i];
      if CanonicalKey(order[n]) != name {
        if exists i :: 0 <= i < |order| && CanonicalKey(order[i]) == name {
          var i :| 0 <= i < |order| && CanonicalKey(order[i]) == name;
          assert i < n && CanonicalKey(init[i]) == name;
        }
      }
    }
  }

  /** No other caller header shares the canonical name of `k`. */
  predicate Unshared(headers: map<string, string>, k: string) {
    forall k' :: k' in headers && CanonicalKey(k') == CanonicalKey(k) ==> k' == k
  }

  /** The embedded request's header holds JSON as its Content-Type and an empty
      User-Agent whatever the caller's map says; every other caller header is copied
      under its canonical name, with the value of a key of that name (of `k` itself when
      no other key shares its name); and it holds nothing else. */
  lemma EmbeddedHeaderOverrides(headers: map<string, string>, order: seq<string>)
    requires IsEnumeration(order, headers)
    ensures var h := EmbeddedHeader(headers, order);
      && h[ContentTypeKey] == [JsonContentType]
      && h[UserAgentKey] == [""]
      && h.Keys == (set k | k in headers :: CanonicalKey(k)) + {ContentTypeKey, UserAgentKey}
    ensures var h := EmbeddedHeader(headers, order);
      forall k :: k in headers && CanonicalKey(k) != ContentTypeKey && CanonicalKey(k) != UserAgentKey ==>
        (exists k' :: k' in headers && CanonicalKey(k') == CanonicalKey(k) && h[CanonicalKey(k)] == [headers[k']])
        && (Unshared(headers, k) ==> h[CanonicalKey(k)] == [headers[k]])
  {
    var base := SetAll(map[], headers, order);
    var h := EmbeddedHeader(headers, order);
    forall name | name in h
      ensures name in (set k | k in headers :: CanonicalKey(k)) + {ContentTypeKey, UserAgentKey}
    {
      SetAllAt(map[], headers, order, name);
      if name != ContentTypeKey && name != UserAgentKey {
        var i :| 0 <= i < |order| && CanonicalKey(order[i]) == name;
      }
    }
    forall k | k in headers
      ensures CanonicalKey(k) in h
    {
      var i :| 0 <= i < |order| && order[i] == k;
      SetAllAt(map[], headers, order, CanonicalKey(k));
    }
    forall k | k in headers && CanonicalKey(k) != ContentTypeKey && CanonicalKey(k) != UserAgentKey
      ensures exists k' :: k' in headers && CanonicalKey(k') == CanonicalKey(k) && h[CanonicalKey(k)] == [headers[k']]
      ensures Unshared(headers, k) ==> h[CanonicalKey(k)] == [headers[k]]
    {
      var i :| 0 <= i < |order| && order[i] == k;
      SetAllAt(map[], headers, order, CanonicalKey(k));
      var j :| 0 <= j < |order| && CanonicalKey(order[j]) == CanonicalKey(k) && base[CanonicalKey(k)] == [headers[order[j]]];
      assert h[CanonicalKey(k)] == [headers[order[j]]];
    }
  }

  /** When no two caller headers share a canonical name, the order in which they are set
      makes no difference. */
  lemma EmbeddedHeaderOrderFree(headers: map<string, string>, o1: seq<string>, o2: seq<string>)
    requires IsEnumeration(o1, headers) && IsEnumeration(o2, headers)
    requires forall k :: k in headers ==> Unshared(headers, k)
    ensures EmbeddedHeader(headers, o1) == EmbeddedHeader(headers, o2)
  {
    var h1, h2 := EmbeddedHeader(headers, o1), EmbeddedHeader(headers, o2);
    EmbeddedHeaderOverrides(headers, o1);
    EmbeddedHeaderOverrides(headers, o2);
    forall name | name in h1
      ensures h1[name] == h2[name]
    {
      if name != ContentTypeKey && name != UserAgentKey {
        var k :| k in headers && CanonicalKey(k) == name;
      }
    }
  }

  /** part: one request to embed in a batch. */
  datatype Part = Part(verb: string, url: string, headers: map<string, string>, body: SendRequest) {

    /** part.bytes: the body marshalled to JSON, wrapped in a request whose header is set
        key by key from the caller's map (`order` is the order the range took) and then
        overridden, and written in the HTTP/1.1 wire format. */
    method Bytes(env: Env) returns (r: Attempt<string>, ghost order: seq<string>)
      ensures Visits(order, headers) && r == Encoding(env, this, order)
      ensures env.marshal(body).Done? && env.parseUrl(url).None? ==> IsEnumeration(order, headers)
      ensures env.marshal(body).Fail? ==> r == Fail(env.marshal(body).cause)
      ensures env.marshal(body).Done? && env.parseUrl(url).Some? ==> r == Fail(env.parseUrl(url).value)
    {
      order := [];
      var b := env.marshal(body);
      if b.Fail? {
        return Fail(b.cause), order;
      }
      var req := NewRequest(env, verb, url, b.value);
      if req.Fail? {
        return Fail(req.cause), order;
      }
      var header := req.value.header;
      var remaining := headers.Keys;
      while remaining != {}
        invariant remaining <= headers.Keys && Visits(order, headers)
        invariant forall k :: k in headers ==> (k in remaining <==> k !in order)
        invariant forall i, j :: 0 <= i < j < |order| ==> order[i] != order[j]
        invariant header == SetAll(map[], headers, order)
        decreases |remaining|
      {
        var key :| key in remaining;
        SetAllSnoc(map[], headers, order, key);
        DistinctSnoc(order, key);
        header := SetHeader(header, key, headers[key]);
        order := order + [key];
        remaining := remaining - {key};
      }
      header := SetHeader(header, "Content-Type", JsonContentType);
      header := SetHeader(header, "User-Agent", "");
      r := env.writeRequest(req.value.(header := header));
    }

    /** part.writeTo: encode the request, then add it to the writer as part `idx` with
        its Content-Id, Content-Length, Content-Type and Content-Transfer-Encoding. An
        encoding error leaves the writer untouched. */
    method WriteTo(env: Env, writer: Writer, idx: nat) returns (err: Option<string>, ghost order: seq<string>)
      requires writer.Valid()
      modifies writer
      ensures Visits(order, headers)
      ensures Encoding(env, this, order).Fail? ==> err == Some(Encoding(env, this, order).cause) && unchanged(writer)
      ensures Encoding(env, this, order).Done? ==>
        (&& err.None? && writer.Valid()
         && writer.parts == old(writer.parts) + [FramedPart(idx, Encoding(env, this, order).value)])
      ensures env.marshal(body).Done? && env.parseUrl(url).None? ==> IsEnumeration(order, headers)
    {
      var b;
      b, order := Bytes(env);
      if b.Fail? {
        return Some(b.cause), order;
      }
      ghost var before := writer.parts;
      writer.CreatePart(PartHeader(idx, b.value));
      assert writer.parts == before + [MimePart(PartHeader(idx, b.value), "")];
      writer.Write(b.value);
      assert "" + b.value == b.value;
      assert writer.parts == before + [FramedPart(idx, b.value)];
      err := None;
    }
  }

  /** What part.bytes yields for a part whose caller headers are visited in `order`. */
  function Encoding(env: Env, p: Part, order: seq<string>): Attempt<string>
    requires Visits(order, p.headers)
  {
    match env.marshal(p.body)
    case Fail(cause) => Fail(cause)
    case Done(json) =>
      match NewRequest(env, p.verb, p.url, json)
      case Fail(cause) => Fail(cause)
      case Done(req) => env.writeRequest(req.(header := EmbeddedHeader(p.headers, order)))
  }

  /** The header fields part.writeTo gives part `idx`, in the order the writer emits them
      (sorted by name). */
  function PartHeader(idx: nat, payload: string): seq<Field> {
    [ Field("Content-Id", Decimal(idx + 1)),
      Field("Content-Length", Decimal(|payload|)),
      Field("Content-Transfer-Encoding", "binary"),
      Field("Content-Type", "application/http") ]
  }

  function FramedPart(idx: nat, payload: string): MimePart {
    MimePart(PartHeader(idx, payload), payload)
  }

  /** The parts of the envelope for a sequence of encoded requests. */
  function Framed(payloads: seq<string>): (ps: seq<MimePart>)
    ensures |ps| == |payloads|
  {
    seq(|payloads|, i requires 0 <= i < |payloads| => FramedPart(i, payloads[i]))
  }

  /** One visiting order per part. */
  predicate OrdersFit(parts: seq<Part>, orders: seq<seq<string>>) {
    |orders| == |parts| && forall i :: 0 <= i < |parts| ==> Visits(orders[i], parts[i].headers)
  }

  /** The parts encoded in order, stopping at the first that fails. */
  function EncodeAll(env: Env, parts: seq<Part>, orders: seq<seq<string>>): (r: Attempt<seq<string>>)
    requires OrdersFit(parts, orders)
    ensures r.Done? ==> |r.value| == |parts|
  {
    if parts == [] then Done([])
    else
      var n := |parts| - 1;
      match EncodeAll(env, parts[..n], orders[..n])
      case Fail(cause) => Fail(cause)
      case Done(payloads) =>
        match Encoding(env, parts[n], orders[n])
        case Fail(cause) => Fail(cause)
        case Done(payload) => Done(payloads + [payload])
  }

  /** multipartEntity: the parts of one batch body. */
  datatype MultipartEntity = MultipartEntity(parts: seq<Part>) {

    /** multipartEntity.Mime: the Content-Type announcing the boundary; it parses to exactly
        the boundary the writer is set to. */
    function Mime(): (r: string)
      ensures ParseMediaType(r) == Done(map["boundary" := Boundary])
    {
      assert "multipart/mixed; boundary=" + Boundary == "multipart/mixed" + "; boundary=" + Boundary;
      MediaTypeAnnouncesBoundary("multipart/mixed", Boundary);
      "multipart/mixed; boundary=" + Boundary
    }

    /** multipartEntity.Bytes: every part written in order with a writer set to the fixed
        boundary, then the closing delimiter; the first part that fails to encode aborts. */
    method Bytes(env: Env) returns (r: Attempt<string>, ghost orders: seq<seq<string>>)
      ensures OrdersFit(parts, orders) && r == Body(env, parts, orders)
      ensures r.Done? ==> forall i :: 0 <= i < |parts| && env.marshal(parts[i].body).Done? && env.parseUrl(parts[i].url).None? ==>
        IsEnumeration(orders[i], parts[i].headers)
      ensures parts == [] ==> r == Done(Serialize(Boundary, []))
      ensures parts != [] && env.marshal(parts[0].body).Fail? ==> r == Fail(env.marshal(parts[0].body).cause)
    {
      var writer := new Writer(Boundary);
      ghost var payloads: seq<string> := [];
      orders := [];
      for idx := 0 to |parts|
        invariant fresh(writer) && writer.Valid() && writer.boundary == Boundary
        invariant |orders| == idx && Progress(env, parts, orders, payloads)
        invariant writer.parts == Framed(payloads)
      {
        var err, order := parts[idx].WriteTo(env, writer, idx);
        if err.Some? {
          ghost var all := FailedAt(env, parts, orders, payloads, idx, order);
          BodyFirstPart(env, parts, all);
          return Fail(err.value), all;
        }
        ProgressStep(env, parts, orders, payloads, order);
        FramedSnoc(payloads, Encoding(env, parts[idx], order).value);
        payloads := payloads + [Encoding(env, parts[idx], order).value];
        orders := orders + [order];
      }
      writer.Close();
      r := Done(writer.buf);
      ProgressDone(env, parts, orders, payloads);
    }
  }

  /** Every order taken so far enumerates its part's headers, where the part got as far
      as its header loop. */
  predicate Enumerated(env: Env, parts: seq<Part>, orders: seq<seq<string>>)
    requires |orders| <= |parts|
    decreases |orders|
  {
    if orders == [] then true
    else
      var n := |orders| - 1;
      && Enumerated(env, parts, orders[..n])
      && (env.marshal(parts[n].body).Done? && env.parseUrl(parts[n].url).None? ==> IsEnumeration(orders[n], parts[n].headers))
  }

  lemma EnumeratedSnoc(env: Env, parts: seq<Part>, orders: seq<seq<string>>, order: seq<string>)
    requires |orders| < |parts| && Enumerated(env, parts, orders)
    requires env.marshal(parts[|orders|].body).Done? && env.parseUrl(parts[|orders|].url).None? ==>
      IsEnumeration(order, parts[|orders|].headers)
    ensures Enumerated(env, parts, orders + [order])
  {
    assert (orders + [order])[..|orders|] == orders;
  }

  lemma {:induction false} EnumeratedAll(env: Env, parts: seq<Part>, orders: seq<seq<string>>)
    requires |orders| <= |parts| && Enumerated(env, parts, orders)
    ensures forall i :: 0 <= i < |orders| && env.marshal(parts[i].body).Done? && env.parseUrl(parts[i].url).None? ==>
      IsEnumeration(orders[i], parts[i].headers)
    decreases |orders|
  {
    if orders != [] {
      var n := |orders| - 1;
      EnumeratedAll(env, parts, orders[..n]);
      assert forall i :: 0 <= i < n ==> orders[..n][i] == orders[i];
    }
  }

  /** The parts before `|orders|` are encoded as `payloads`, and their orders are
      enumerations where the header loop ran. */
  predicate Progress(env: Env, parts: seq<Part>, orders: seq<seq<string>>, payloads: seq<string>) {
    && |orders| <= |parts|
    && OrdersFit(parts[..|orders|], orders)
    && EncodeAll(env, parts[..|orders|], orders) == Done(payloads)
    && Enumerated(env, parts, orders)
  }

  lemma ProgressStep(env: Env, parts: seq<Part>, orders: seq<seq<string>>, payloads: seq<string>, order: seq<string>)
    requires Progress(env, parts, orders, payloads) && |orders| < |parts|
    requires Visits(order, parts[|orders|].headers) && Encoding(env, parts[|orders|], order).Done?
    requires env.marshal(parts[|orders|].body).Done? && env.parseUrl(parts[|orders|].url).None? ==>
      IsEnumeration(order, parts[|orders|].headers)
    ensures Progress(env, parts, orders + [order], payloads + [Encoding(env, parts[|orders|], order).value])
  {
    EncodeAllStep(env, parts, orders, payloads, |orders|, order);
    EnumeratedSnoc(env, parts, orders, order);
  }

  /** Once every part is encoded, the body is the serialised framing of the payloads. */
  lemma ProgressDone(env: Env, parts: seq<Part>, orders: seq<seq<string>>, payloads: seq<string>)
    requires Progress(env, parts, orders, payloads) && |orders| == |parts|
    ensures OrdersFit(parts, orders) && Body(env, parts, orders) == Done(Serialize(Boundary, Framed(payloads)))
    ensures forall i :: 0 <= i < |parts| && env.marshal(parts[i].body).Done? && env.parseUrl(parts[i].url).None? ==>
      IsEnumeration(orders[i], parts[i].headers)
    ensures parts == [] ==> Framed(payloads) == []
    ensures parts != [] ==> env.marshal(parts[0].body).Done?
  {
    assert parts[..|parts|] == parts;
    EnumeratedAll(env, parts, orders);
    if parts != [] {
      BodyFirstPart(env, parts, orders);
    }
  }

  /** A first part whose body does not marshal decides the outcome of the whole body. */
  lemma BodyFirstPart(env: Env, parts: seq<Part>, orders: seq<seq<string>>)
    requires OrdersFit(parts, orders) && parts != []
    ensures env.marshal(parts[0].body).Fail? ==> Body(env, parts, orders) == Fail(env.marshal(parts[0].body).cause)
  {
    if env.marshal(parts[0].body).Fail? {
      EncodeAllFirstFailure(env, parts, orders, 0);
    }
  }

  /** The visiting orders once part `idx` has failed: those taken so far, then none. */
  lemma FailedAt(env: Env, parts: seq<Part>, orders: seq<seq<string>>, payloads: seq<string>, idx: nat, order: seq<string>)
    returns (all: seq<seq<string>>)
    requires idx < |parts| && OrdersFit(parts[..idx], orders) && Visits(order, parts[idx].headers)
    requires EncodeAll(env, parts[..idx], orders) == Done(payloads)
    requires Encoding(env, parts[idx], order).Fail?
    ensures OrdersFit(parts, all) && Body(env, parts, all) == Fail(Encoding(env, parts[idx], order).cause)
  {
    EncodeAllStep(env, parts, orders, payloads, idx, order);
    all := orders + [order] + seq(|parts| - idx - 1, _ => []);
    assert all[..idx + 1] == orders + [order];
    EncodeAllStaysFailed(env, parts, all, idx + 1);
  }

  /** One more part: its encoding is appended, or its failure ends the encoding. */
  lemma EncodeAllStep(env: Env, parts: seq<Part>, orders: seq<seq<string>>, payloads: seq<string>, idx: nat, order: seq<string>)
    requires idx < |parts| && OrdersFit(parts[..idx], orders) && Visits(order, parts[idx].headers)
    requires EncodeAll(env, parts[..idx], orders) == Done(payloads)
    ensures OrdersFit(parts[..idx + 1], orders + [order])
    ensures EncodeAll(env, parts[..idx + 1], orders + [order]) ==
      match Encoding(env, parts[idx], order)
      case Fail(cause) => Fail(cause)
      case Done(p) => Done(payloads + [p])
  {
    var pre := parts[..idx + 1];
    assert pre[..idx] == parts[..idx] && pre[idx] == parts[idx];
    assert (orders + [order])[..idx] == orders;
  }

  lemma FramedSnoc(payloads: seq<string>, p: string)
    ensures Framed(payloads + [p]) == Framed(payloads) + [FramedPart(|payloads|, p)]
  {
    var a, b := Framed(payloads + [p]), Framed(payloads) + [FramedPart(|payloads|, p)];
    forall i | 0 <= i < |a| ensures a[i] == b[i] {
      if i < |payloads| {
        assert (payloads + [p])[i] == payloads[i];
      }
    }
  }

  /** The body multipartEntity.Bytes yields. */
  function Body(env: Env, parts: seq<Part>, orders: seq<seq<string>>): Attempt<string>
    requires OrdersFit(parts, orders)
  {
    match EncodeAll(env, parts, orders)
    case Fail(cause) => Fail(cause)
    case Done(payloads) => Done(Serialize(Boundary, Framed(payloads)))
  }

  /** Once a part has failed, the later parts do not change the outcome. */
  lemma {:induction false} EncodeAllStaysFailed(env: Env, parts: seq<Part>, orders: seq<seq<string>>, k: nat)
    requires OrdersFit(parts, orders) && k <= |parts|
    requires EncodeAll(env, parts[..k], orders[..k]).Fail?
    ensures EncodeAll(env, parts, orders) == EncodeAll(env, parts[..k], orders[..k])
    decreases |parts| - k
  {
    if k < |parts| {
      assert parts[..k + 1][..k] == parts[..k];
      assert orders[..k + 1][..k] == orders[..k];
      EncodeAllStaysFailed(env, parts, orders, k + 1);
    } else {
      assert parts[..k] == parts && orders[..k] == orders;
    }
  }

  /** The encoded parts come out in input order, one per part, each the encoding of its
      part; and the encoding succeeds exactly when every part encodes. */
  lemma {:induction false} EncodeAllInOrder(env: Env, parts: seq<Part>, orders: seq<seq<string>>)
    requires OrdersFit(parts, orders)
    ensures EncodeAll(env, parts, orders).Done? <==>
      forall i :: 0 <= i < |parts| ==> Encoding(env, parts[i], orders[i]).Done?
    ensures EncodeAll(env, parts, orders).Done? ==>
      forall i :: 0 <= i < |parts| ==> EncodeAll(env, parts, orders).value[i] == Encoding(env, parts[i], orders[i]).value
    decreases |parts|
  {
    if parts != [] {
      var n := |parts| - 1;
      OrdersFitPrefix(parts, orders, n);
      EncodeAllInOrder(env, parts[..n], orders[..n]);
    }
  }

  lemma OrdersFitPrefix(parts: seq<Part>, orders: seq<seq<string>>, n: nat)
    requires OrdersFit(parts, orders) && n <= |parts|
    ensures OrdersFit(parts[..n], orders[..n])
    ensures forall i :: 0 <= i < n ==> parts[..n][i] == parts[i] && orders[..n][i] == orders[i]
  {
  }

  /** The first part that fails to encode decides the error. */
  lemma {:induction false} EncodeAllFirstFailure(env: Env, parts: seq<Part>, orders: seq<seq<string>>, k: nat)
    requires OrdersFit(parts, orders) && k < |parts|
    requires forall i :: 0 <= i < k ==> Encoding(env, parts[i], orders[i]).Done?
    requires Encoding(env, parts[k], orders[k]).Fail?
    ensures EncodeAll(env, parts, orders) == Fail(Encoding(env, parts[k], orders[k]).cause)
  {
    var pre, pos := parts[..k + 1], orders[..k + 1];
    assert pre[..k] == parts[..k] && pos[..k] == orders[..k];
    EncodeAllInOrder(env, parts[..k], orders[..k]);
    assert forall i :: 0 <= i < k ==> parts[..k][i] == parts[i] && orders[..k][i] == orders[i];
    EncodeAllStaysFailed(env, parts, orders, k + 1);
  }

  /** Part i of the envelope carries Content-Id i+1, the byte length of its payload as its
      Content-Length, Content-Type application/http and Content-Transfer-Encoding binary,
      and both numbers read back. */
  lemma FramedHeaders(payloads: seq<string>, i: nat)
    requires i < |payloads|
    ensures var ps := Framed(payloads);
      && ps[i].payload == payloads[i]
      && FieldValue(ps[i].header, "Content-Id") == Some(Decimal(i + 1))
      && FieldValue(ps[i].header, "Content-Length") == Some(Decimal(|payloads[i]|))
      && FieldValue(ps[i].header, "Content-Type") == Some("application/http")
      && FieldValue(ps[i].header, "Content-Transfer-Encoding") == Some("binary")
      && ParseDecimal(Decimal(i + 1)) == Some(i + 1)
      && ParseDecimal(Decimal(|payloads[i]|)) == Some(|payloads[i]|)
  {
    var h := Framed(payloads)[i].header;
    FieldValueAt(h, 0, "Content-Id");
    FieldValueAt(h, 1, "Content-Length");
    FieldValueAt(h, 2, "Content-Transfer-Encoding");
    FieldValueAt(h, 3, "Content-Type");
    DecimalRoundTrip(i + 1);
    DecimalRoundTrip(|payloads[i]|);
  }

  /** The header part.writeTo writes reads back unchanged. */
  lemma PartHeaderValid(idx: nat, payload: string)
    ensures ValidHeader(PartHeader(idx, payload))
  {
    DecimalField("Content-Id", idx + 1);
    DecimalField("Content-Length", |payload|);
    FixedFieldsValid();
    var h := PartHeader(idx, payload);
    FourFieldsValid(h[0], h[1], h[2], h[3]);
    assert h == [h[0], h[1], h[2], h[3]];
  }

  /** A field whose value is a decimal number reads back as written. */
  lemma DecimalField(name: string, n: nat)
    requires ':' !in name && '\r' !in name
    ensures ValidField(Field(name, Decimal(n)))
  {
    DecimalHasNo(n, '\r');
  }

  lemma FixedFieldsValid()
    ensures ValidField(Field("Content-Transfer-Encoding", "binary"))
    ensures ValidField(Field("Content-Type", "application/http"))
  {
    BinaryFieldValid();
    HttpTypeFieldValid();
  }

  lemma BinaryFieldValid()
    ensures ValidField(Field("Content-Transfer-Encoding", "binary"))
  {
    assert "Content-Transfer-Encoding" == "Content-" + "Transfer-" + "Encoding";
    NotIn3("Content-", "Transfer-", "Encoding", ':');
    NotIn3("Content-", "Transfer-", "Encoding", '\r');
  }

  lemma HttpTypeFieldValid()
    ensures ValidField(Field("Content-Type", "application/http"))
  {
    assert "application/http" == "applica" + "tion/" + "http";
    NotIn3("applica", "tion/", "http", '\r');
  }

  /** A character absent from three strings is absent from their concatenation. */
  lemma NotIn3(a: string, b: string, c: string, x: char)
    requires x !in a && x !in b && x !in c
    ensures x !in a + b + c
  {
  }

  lemma FourFieldsValid(a: Field, b: Field, c: Field, d: Field)
    requires ValidField(a) && ValidField(b) && ValidField(c) && ValidField(d)
    ensures ValidHeader([a, b, c, d])
  {
  }

  /** The delimiter does not occur inside any framed part (the boundary does not collide
      with a payload). */
  ghost predicate FreeOfBoundary(payloads: seq<string>) {
    forall i :: 0 <= i < |payloads| ==> OccursOnlyAtEnd(EncodePart(Framed(payloads)[i]), Delimiter(Boundary))
  }

  /** Reading a batch body back with the boundary gives every framed part, in order. */
  lemma BodyReadsBack(payloads: seq<string>)
    requires FreeOfBoundary(payloads)
    ensures ReadAll(Boundary, Serialize(Boundary, Framed(payloads)), true) == Done(Framed(payloads))
  {
    var ps := Framed(payloads);
    forall i | 0 <= i < |ps|
      ensures Delimited(Boundary, ps[i])
    {
      PartHeaderValid(i, payloads[i]);
    }
    EnvelopeRoundTrip(Boundary, ps);
  }
}
