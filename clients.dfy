/** The Client record of client.go, the options of option.go that update it in place,
    and NewClient, which fills in the defaults and applies the options in order. */
module Clients {
  import opened Wrappers
  import opened Errors
  import opened Collaborators

  const DefaultEndpoint: string := "https://fcm.googleapis.com/v1"
  const DefaultBatchEndpoint: string := "https://fcm.googleapis.com/batch"

  /** The header every embedded send request carries, and its value. */
  const ApiFormatVersionHeader: string := "X-GOOG-API-FORMAT-VERSION"
  const ApiFormatVersion: string := "2"

  /** The URL single messages of a project are posted to, under a given FCM endpoint. */
  function SendEndpoint(fcmEndpoint: string, projectID: string): string {
    fcmEndpoint + "/projects/" + projectID + "/messages:send"
  }

  /** An Option: the closure WithEndpoints or WithHTTPClient returns, by its arguments. */
  datatype ClientOption =
    | WithEndpoints(endpoint: string, batchEndpoint: string)
    | WithHTTPClient(httpClient: HttpClient)

  /** The fields of a Client that options assign. */
  datatype Config = Config(fcmEndpoint: string, batchEndpoint: string, client: HttpClient)

  /** What NewClient sets before it runs the options. */
  const Defaults: Config := Config(DefaultEndpoint, DefaultBatchEndpoint, DefaultClient)

  /** The effect of one option on the fields it assigns: WithEndpoints refuses an empty
      endpoint or an empty batch endpoint; WithHTTPClient never fails. */
  function Applied(c: Config, o: ClientOption): Result<Config> {
    match o
    case WithEndpoints(endpoint, batchEndpoint) =>
      if endpoint == "" then Err(InvalidEndpoint)
      else if batchEndpoint == "" then Err(InvalidBatchEndpoint)
      else Ok(c.(fcmEndpoint := endpoint, batchEndpoint := batchEndpoint))
    case WithHTTPClient(h) => Ok(c.(client := h))
  }

  /** WithEndpoints as option.go writes it: the second check tests `endpoint` again, so an
      empty batch endpoint is accepted. */
  function AppliedAsWritten(c: Config, o: ClientOption): Result<Config> {
    match o
    case WithEndpoints(endpoint, batchEndpoint) =>
      if endpoint == "" then Err(InvalidEndpoint)
      else if endpoint == "" then Err(InvalidBatchEndpoint)
      else Ok(c.(fcmEndpoint := endpoint, batchEndpoint := batchEndpoint))
    case WithHTTPClient(h) => Ok(c.(client := h))
  }

  /** One option, as written (`asWritten`) or corrected. */
  function Step(c: Config, o: ClientOption, asWritten: bool): Result<Config> {
    if asWritten then AppliedAsWritten(c, o) else Applied(c, o)
  }

  /** The options applied in order, stopping at the first that fails. NewClient runs them
      as written; `asWritten == false` gives the corrected fold. */
  function Configured(c: Config, opts: seq<ClientOption>, asWritten: bool): Result<Config> {
    if opts == [] then Ok(c)
    else match Configured(c, opts[..|opts| - 1], asWritten)
      case Err(e) => Err(e)
      case Ok(d) => Step(d, opts[|opts| - 1], asWritten)
  }

  /** An option is one WithEndpoints accepts: as written, any non-empty endpoint; corrected,
      a non-empty endpoint and a non-empty batch endpoint. */
  predicate Acceptable(o: ClientOption, asWritten: bool) {
    o.WithEndpoints? ==> o.endpoint != "" && (asWritten || o.batchEndpoint != "")
  }

  /** The options configure a client exactly when each of them is acceptable. */
  lemma {:induction false} ConfiguredOkIffAcceptable(c: Config, opts: seq<ClientOption>, asWritten: bool)
    ensures Configured(c, opts, asWritten).Ok? <==> forall i :: 0 <= i < |opts| ==> Acceptable(opts[i], asWritten)
    decreases |opts|
  {
    if opts != [] {
      var init := opts[..|opts| - 1];
      ConfiguredOkIffAcceptable(c, init, asWritten);
      assert forall i :: 0 <= i < |init| ==> init[i] == opts[i];
    }
  }

  /** opts[j] is the last WithEndpoints option of `opts`. */
  predicate LastEndpointsAt(opts: seq<ClientOption>, j: nat) {
    j < |opts| && opts[j].WithEndpoints? && forall i :: j < i < |opts| ==> !opts[i].WithEndpoints?
  }

  /** opts[j] is the last WithHTTPClient option of `opts`. */
  predicate LastHTTPClientAt(opts: seq<ClientOption>, j: nat) {
    j < |opts| && opts[j].WithHTTPClient? && forall i :: j < i < |opts| ==> !opts[i].WithHTTPClient?
  }

  /** The endpoints a configured client ends with are those of the last WithEndpoints
      option; without such an option the starting ones stay. */
  lemma {:induction false} ConfiguredTakesLastEndpoints(c: Config, opts: seq<ClientOption>, asWritten: bool, d: Config)
    requires Configured(c, opts, asWritten) == Ok(d)
    ensures (forall i :: 0 <= i < |opts| ==> !opts[i].WithEndpoints?) ==>
      (d.fcmEndpoint == c.fcmEndpoint && d.batchEndpoint == c.batchEndpoint)
    ensures forall j: nat :: LastEndpointsAt(opts, j) ==>
      (d.fcmEndpoint == opts[j].endpoint && d.batchEndpoint == opts[j].batchEndpoint)
    decreases |opts|
  {
    if opts != [] {
      var n := |opts| - 1;
      var init := opts[..n];
      var e :| Configured(c, init, asWritten) == Ok(e) && Step(e, opts[n], asWritten) == Ok(d);
      ConfiguredTakesLastEndpoints(c, init, asWritten, e);
      if !opts[n].WithEndpoints? {
        assert d.fcmEndpoint == e.fcmEndpoint && d.batchEndpoint == e.batchEndpoint;
        forall j: nat | LastEndpointsAt(opts, j)
          ensures LastEndpointsAt(init, j)
        {
          assert forall i :: j < i < n ==> init[i] == opts[i];
        }
        assert (forall i :: 0 <= i < |opts| ==> !opts[i].WithEndpoints?) ==>
          (forall i :: 0 <= i < |init| ==> !init[i].WithEndpoints?);
      }
    }
  }

  /** The transport of a configured client is that of the last WithHTTPClient option;
      without such an option the starting one stays. */
  lemma {:induction false} ConfiguredTakesLastClient(c: Config, opts: seq<ClientOption>, asWritten: bool, d: Config)
    requires Configured(c, opts, asWritten) == Ok(d)
    ensures (forall i :: 0 <= i < |opts| ==> !opts[i].WithHTTPClient?) ==> d.client == c.client
    ensures forall j: nat :: LastHTTPClientAt(opts, j) ==> d.client == opts[j].httpClient
    decreases |opts|
  {
    if opts != [] {
      var n := |opts| - 1;
      var init := opts[..n];
      var e :| Configured(c, init, asWritten) == Ok(e) && Step(e, opts[n], asWritten) == Ok(d);
      ConfiguredTakesLastClient(c, init, asWritten, e);
      if !opts[n].WithHTTPClient? {
        assert d.client == e.client;
        forall j: nat | LastHTTPClientAt(opts, j)
          ensures LastHTTPClientAt(init, j)
        {
          assert forall i :: j < i < n ==> init[i] == opts[i];
        }
        assert (forall i :: 0 <= i < |opts| ==> !opts[i].WithHTTPClient?) ==>
          (forall i :: 0 <= i < |init| ==> !init[i].WithHTTPClient?);
      }
    }
  }

  /** The Client struct. */
  class Client {
    var projectID: string
    var fcmEndpoint: string
    var batchEndpoint: string
    var sendEndpoint: string
    var client: HttpClient
    var tokenProvider: TokenProvider

    /** The fields options assign. */
    function Current(): Config
      reads this
    {
      Config(fcmEndpoint, batchEndpoint, client)
    }

    /** The composite literal of NewClient: defaults for the endpoints and the transport,
        and no send endpoint yet. */
    constructor (projectID: string, tp: TokenProvider)
      ensures this.projectID == projectID && tokenProvider == tp
      ensures Current() == Defaults && sendEndpoint == ""
    {
      this.projectID := projectID;
      fcmEndpoint := DefaultEndpoint;
      batchEndpoint := DefaultBatchEndpoint;
      client := DefaultClient;
      tokenProvider := tp;
      sendEndpoint := "";
    }

    /** The closure of WithEndpoints, with its second check testing the batch endpoint.
        The FCM endpoint is assigned before that check, so a refused batch endpoint leaves
        the new FCM endpoint behind (NewClient then drops the client). */
    method WithEndpoints(endpoint: string, batchEndpoint: string) returns (err: Option<Error>)
      modifies this
      ensures endpoint == "" ==> err == Some(InvalidEndpoint) && unchanged(this)
      ensures endpoint != "" && batchEndpoint == "" ==>
        (err == Some(InvalidBatchEndpoint) && fcmEndpoint == endpoint
         && this.batchEndpoint == old(this.batchEndpoint) && client == old(client))
      ensures err.None? ==> Ok(Current()) == Applied(old(Current()), ClientOption.WithEndpoints(endpoint, batchEndpoint))
      ensures err.Some? ==> Applied(old(Current()), ClientOption.WithEndpoints(endpoint, batchEndpoint)) == Err(err.value)
      ensures projectID == old(projectID) && sendEndpoint == old(sendEndpoint) && tokenProvider == old(tokenProvider)
    {
      if endpoint == "" {
        return Some(InvalidEndpoint);
      }
      fcmEndpoint := endpoint;
      if batchEndpoint == "" {
        return Some(InvalidBatchEndpoint);
      }
      this.batchEndpoint := batchEndpoint;
      return None;
    }

    /** The closure of WithEndpoints exactly as option.go writes it. */
    method WithEndpointsAsWritten(endpoint: string, batchEndpoint: string) returns (err: Option<Error>)
      modifies this
      ensures err.Some? <==> endpoint == ""
      ensures err.Some? ==> err.value == InvalidEndpoint && unchanged(this)
      ensures err.None? ==> fcmEndpoint == endpoint && this.batchEndpoint == batchEndpoint && client == old(client)
      ensures err.None? ==> Ok(Current()) == AppliedAsWritten(old(Current()), ClientOption.WithEndpoints(endpoint, batchEndpoint))
      ensures err.Some? ==> AppliedAsWritten(old(Current()), ClientOption.WithEndpoints(endpoint, batchEndpoint)) == Err(err.value)
      ensures projectID == old(projectID) && sendEndpoint == old(sendEndpoint) && tokenProvider == old(tokenProvider)
    {
      if endpoint == "" {
        return Some(InvalidEndpoint);
      }
      fcmEndpoint := endpoint;
      if endpoint == "" {
        return Some(InvalidBatchEndpoint);
      }
      this.batchEndpoint := batchEndpoint;
      return None;
    }

    /** The closure of WithHTTPClient: only the transport changes. */
    method WithHTTPClient(httpClient: HttpClient) returns (err: Option<Error>)
      modifies this
      ensures err.None? && client == httpClient
      ensures Ok(Current()) == Applied(old(Current()), ClientOption.WithHTTPClient(httpClient))
      ensures projectID == old(projectID) && fcmEndpoint == old(fcmEndpoint) && batchEndpoint == old(batchEndpoint)
      ensures sendEndpoint == old(sendEndpoint) && tokenProvider == old(tokenProvider)
    {
      client := httpClient;
      return None;
    }

    /** o(c): runs the closure an option stands for, as option.go writes it. */
    method Apply(o: ClientOption) returns (err: Option<Error>)
      modifies this
      ensures err.None? ==> AppliedAsWritten(old(Current()), o) == Ok(Current())
      ensures err.Some? ==> AppliedAsWritten(old(Current()), o) == Err(err.value)
      ensures projectID == old(projectID) && sendEndpoint == old(sendEndpoint) && tokenProvider == old(tokenProvider)
    {
      match o
      case WithEndpoints(endpoint, batchEndpoint) =>
        err := WithEndpointsAsWritten(endpoint, batchEndpoint);
      case WithHTTPClient(h) =>
        err := WithHTTPClient(h);
    }
  }

  /** NewClient: the token provider is built first; the send endpoint is derived from the
      default FCM endpoint before any option runs; the first option that fails aborts. */
  method NewClient(env: Env, projectID: string, credentialsLocation: string, opts: seq<ClientOption>)
    returns (r: Result<Client>)
    ensures env.newTokenProvider(credentialsLocation).Fail? ==>
      r == Err(Credentials(env.newTokenProvider(credentialsLocation).cause))
    ensures env.newTokenProvider(credentialsLocation).Done? ==>
      (r.Ok? <==> Configured(Defaults, opts, true).Ok?) &&
      (r.Err? ==> Configured(Defaults, opts, true) == Err(r.error))
    ensures r.Ok? ==> fresh(r.value) && r.value.projectID == projectID
    ensures r.Ok? ==> r.value.tokenProvider == env.newTokenProvider(credentialsLocation).value
    ensures r.Ok? ==> r.value.sendEndpoint == SendEndpoint(DefaultEndpoint, projectID)
    ensures r.Ok? ==> Configured(Defaults, opts, true) == Ok(r.value.Current())
  {
    var tp := env.newTokenProvider(credentialsLocation);
    if tp.Fail? {
      return Err(Credentials(tp.cause));
    }
    var c := new Client(projectID, tp.value);
    c.sendEndpoint := SendEndpoint(c.fcmEndpoint, c.projectID);
    for i := 0 to |opts|
      invariant Configured(Defaults, opts[..i], true) == Ok(c.Current())
      invariant c.projectID == projectID && c.tokenProvider == tp.value
      invariant c.sendEndpoint == SendEndpoint(DefaultEndpoint, projectID)
    {
      assert opts[..i + 1][..i] == opts[..i];
      var err := c.Apply(opts[i]);
      if err.Some? {
        ConfiguredStaysFailed(Defaults, opts, true, i + 1);
        return Err(err.value);
      }
    }
    assert opts[..|opts|] == opts;
    return Ok(c);
  }

  /** Once an option has failed, no later option changes the outcome. */
  lemma {:induction false} ConfiguredStaysFailed(c: Config, opts: seq<ClientOption>, asWritten: bool, k: nat)
    requires k <= |opts| && Configured(c, opts[..k], asWritten).Err?
    ensures Configured(c, opts, asWritten) == Configured(c, opts[..k], asWritten)
    decreases |opts| - k
  {
    if k < |opts| {
      assert opts[..k + 1][..k] == opts[..k];
      ConfiguredStaysFailed(c, opts, asWritten, k + 1);
    } else {
      assert opts[..k] == opts;
    }
  }

  /** With an empty batch endpoint the option as written succeeds and sets it, where the
      corrected option refuses it. */
  lemma EmptyBatchEndpointAcceptedAsWritten(c: Config, endpoint: string)
    requires endpoint != ""
    ensures AppliedAsWritten(c, ClientOption.WithEndpoints(endpoint, "")) == Ok(c.(fcmEndpoint := endpoint, batchEndpoint := ""))
    ensures Applied(c, ClientOption.WithEndpoints(endpoint, "")) == Err(InvalidBatchEndpoint)
  {
  }

  /** With non-empty endpoints throughout, a last WithEndpoints whose batch endpoint is
      empty configures a client whose batch endpoint is empty; the corrected options
      refuse the same list. */
  lemma LastEmptyBatchEndpointKept(c: Config, opts: seq<ClientOption>, j: nat)
    requires LastEndpointsAt(opts, j) && opts[j].batchEndpoint == ""
    requires forall i :: 0 <= i < |opts| && opts[i].WithEndpoints? ==> opts[i].endpoint != ""
    ensures Configured(c, opts, true).Ok?
    ensures Configured(c, opts, true).value.fcmEndpoint == opts[j].endpoint
    ensures Configured(c, opts, true).value.batchEndpoint == ""
    ensures Configured(c, opts, false) == Err(InvalidBatchEndpoint)
  {
    ConfiguredOkIffAcceptable(c, opts, true);
    ConfiguredTakesLastEndpoints(c, opts, true, Configured(c, opts, true).value);
    ConfiguredOkIffAcceptable(c, opts, false);
    OnlyBatchEndpointRefused(c, opts);
  }

  /** When every endpoint is non-empty, the only error the corrected options can give is
      the refused batch endpoint. */
  lemma {:induction false} OnlyBatchEndpointRefused(c: Config, opts: seq<ClientOption>)
    requires forall i :: 0 <= i < |opts| && opts[i].WithEndpoints? ==> opts[i].endpoint != ""
    ensures Configured(c, opts, false).Err? ==> Configured(c, opts, false).error == InvalidBatchEndpoint
    decreases |opts|
  {
    if opts != [] {
      var init := opts[..|opts| - 1];
      assert forall i :: 0 <= i < |init| ==> init[i] == opts[i];
      OnlyBatchEndpointRefused(c, init);
    }
  }
}
