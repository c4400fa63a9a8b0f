/**
  The two delegated-token flows of `TokenService`. Both post a form to a
  token endpoint and return the reply's `access_token` text, or "".
  `exchangeToken` posts to the endpoint of the token's own issuer;
  `impersonateUser` posts to the configured realm whatever the token says.
 */
module DelegatedToken {
  import opened JavaLang
  import opened Claims
  import opened ResponseField
  import opened FormBody

  /** The service's configuration fields (each a Java string, possibly null). */
  datatype Config = Config(
    clientSecret: JString,
    clientId: JString,
    tokenExchangeGrantType: JString,
    keycloakServerURL: JString,
    keycloakRealm: JString)

  const TokenPath: string := "/protocol/openid-connect/token"

  /** What is posted: the URL and the form body. */
  datatype TokenRequest = TokenRequest(url: string, form: Form)

  /** How `postForEntity` ends: a reply with a (possibly null) body, or the
      exception it throws (`HttpClientErrorException` for a 4xx reply,
      `IllegalArgumentException` for a URL without a scheme, another
      `RestClientException` for the rest). */
  datatype HttpOutcome = Ok(body: Option<string>) | Failed(exception: Exception)

  /** The HTTP transport, seen only through the outcome of one POST. */
  type Transport = TokenRequest -> HttpOutcome

  /** What the handler around the POST catches in both flows. */
  const Handled: set<Exception> := {NullPointerException, HttpClientErrorException}

  /** A transport that, as `RestTemplate` does, refuses the two scheme-less
      URLs exchange can build: the bare token path (an unparsable token) and
      "null" before it (a token without `iss`). */
  ghost predicate RejectsRelative(send: Transport)
  {
    forall f: Form ::
      && send(TokenRequest(TokenPath, f)) == Failed(IllegalArgumentException)
      && send(TokenRequest("null" + TokenPath, f)) == Failed(IllegalArgumentException)
  }

  /** The three `add` calls both flows start with. */
  function CredentialsForm(cfg: Config): Form
  {
    var withGrant := Added(EmptyForm, "grant_type", cfg.tokenExchangeGrantType);
    var withClient := Added(withGrant, "client_id", cfg.clientId);
    Added(withClient, "client_secret", cfg.clientSecret)
  }

  function ExchangeForm(cfg: Config, token: string): Form
  {
    Added(CredentialsForm(cfg), "subject_token", Some(token))
  }

  function ImpersonationForm(cfg: Config, userId: JString): Form
  {
    Added(CredentialsForm(cfg), "requested_subject", userId)
  }

  /** The issuer `exchangeToken` posts to: "" until the token parses, then
      the token's own `iss` claim (null when the claim is missing). */
  function ExchangeIssuer(parsed: Option<ClaimSet>): JString
  {
    match parsed
    case None => Some("")
    case Some(claims) => claims.iss
  }

  /** The issuer `impersonateUser` posts to. */
  function RealmIssuer(cfg: Config): string
  {
    Text(cfg.keycloakServerURL) + "/realms/" + Text(cfg.keycloakRealm)
  }

  function ExchangeRequest(cfg: Config, parse: Parser, token: string): TokenRequest
  {
    TokenRequest(Text(ExchangeIssuer(parse(token))) + TokenPath, ExchangeForm(cfg, token))
  }

  function ImpersonationRequest(cfg: Config, parse: Parser, token: string): TokenRequest
  {
    TokenRequest(RealmIssuer(cfg) + TokenPath, ImpersonationForm(cfg, GetUserId(parse, token)))
  }

  /** The end of `exchangeToken`: the POST outcome, then the handler. The
      result starts as "" and takes the extracted `access_token` text only
      when that text is not empty; a null body fails in `toString()` with a
      `NullPointerException`, which is caught. */
  function ExchangeReply(response: HttpOutcome, readTree: JsonReader): (r: Outcome<string>)
    ensures r.Threw? <==> response.Failed? && response.exception !in Handled
    ensures r.Threw? ==> r.exception == response.exception
    ensures response.Ok? && response.body.Some? ==>
      r == Returned(ExtractField(readTree, response.body.value, "access_token"))
    ensures response == Ok(None) || (response.Failed? && response.exception in Handled) ==>
      r == Returned("")
  {
    var newToken := "";
    match response
    case Failed(e) => Catch(Threw(e), Handled, newToken)
    case Ok(None) => Catch(Threw(NullPointerException), Handled, newToken)
    case Ok(Some(body)) =>
      var extracted := ExtractField(readTree, body, "access_token");
      Returned(if extracted != "" then extracted else newToken)
  }

  /** The end of `impersonateUser`: the body goes to the extractor as it is,
      so a null body makes the JSON reader throw `IllegalArgumentException`,
      which neither the extractor nor this handler catches. */
  function ImpersonationReply(response: HttpOutcome, readTree: JsonReader): (r: Outcome<string>)
    ensures r.Threw? <==> response == Ok(None) || (response.Failed? && response.exception !in Handled)
    ensures response == Ok(None) ==> r == Threw(IllegalArgumentException)
    ensures response.Failed? && r.Threw? ==> r.exception == response.exception
    ensures response.Ok? && response.body.Some? ==>
      r == Returned(ExtractField(readTree, response.body.value, "access_token"))
    ensures response.Failed? && response.exception in Handled ==> r == Returned("")
  {
    var newAccessToken := "";
    match response
    case Failed(e) => Catch(Threw(e), Handled, newAccessToken)
    case Ok(body) =>
      match ExtractNullableField(readTree, body, "access_token")
      case Threw(e) => Catch(Threw(e), Handled, newAccessToken)
      case Returned(extracted) => Returned(if extracted != "" then extracted else newAccessToken)
  }

  /** `exchangeToken(token)`. */
  method ExchangeToken(cfg: Config, parse: Parser, readTree: JsonReader, send: Transport, token: string)
    returns (r: Outcome<string>)
    ensures r == ExchangeReply(send(ExchangeRequest(cfg, parse, token)), readTree)
  {
    var body := new MultiValueMap();
    body.Add("grant_type", cfg.tokenExchangeGrantType);
    body.Add("client_id", cfg.clientId);
    body.Add("client_secret", cfg.clientSecret);
    body.Add("subject_token", Some(token));

    var issuer: JString := Some("");
    var parsed := parse(token);
    if parsed.Some? {
      issuer := parsed.value.iss;
    }
    var response := send(TokenRequest(Text(issuer) + TokenPath, body.Contents()));
    r := ExchangeReply(response, readTree);
  }

  /** `impersonateUser(token)`. */
  method ImpersonateUser(cfg: Config, parse: Parser, readTree: JsonReader, send: Transport, token: string)
    returns (r: Outcome<string>)
    ensures r == ImpersonationReply(send(ImpersonationRequest(cfg, parse, token)), readTree)
  {
    var userId := GetUserId(parse, token);
    var body := new MultiValueMap();
    body.Add("grant_type", cfg.tokenExchangeGrantType);
    body.Add("client_id", cfg.clientId);
    body.Add("client_secret", cfg.clientSecret);
    body.Add("requested_subject", userId);

    var issuer := Text(cfg.keycloakServerURL) + "/realms/" + Text(cfg.keycloakRealm);
    var response := send(TokenRequest(issuer + TokenPath, body.Contents()));
    r := ImpersonationReply(response, readTree);
  }

  lemma CredentialsFormShape(cfg: Config)
    ensures CredentialsForm(cfg) == Form(
      ["grant_type", "client_id", "client_secret"],
      map["grant_type" := [cfg.tokenExchangeGrantType], "client_id" := [cfg.clientId],
          "client_secret" := [cfg.clientSecret]])
  {
  }

  /** The exchange form: grant type, client id, client secret and the
      caller's token as `subject_token`, in that order, one value each;
      the URL is the token's own issuer followed by the token path. */
  lemma ExchangeRequestShape(cfg: Config, parse: Parser, token: string)
    ensures ExchangeRequest(cfg, parse, token).form == Form(
      ["grant_type", "client_id", "client_secret", "subject_token"],
      map["grant_type" := [cfg.tokenExchangeGrantType], "client_id" := [cfg.clientId],
          "client_secret" := [cfg.clientSecret], "subject_token" := [Some(token)]])
    ensures parse(token).None? ==> ExchangeRequest(cfg, parse, token).url == TokenPath
    ensures parse(token).Some? && parse(token).value.iss.Some? ==>
      ExchangeRequest(cfg, parse, token).url == parse(token).value.iss.value + TokenPath
    ensures parse(token).Some? && parse(token).value.iss.None? ==>
      ExchangeRequest(cfg, parse, token).url == "null" + TokenPath
  {
    CredentialsFormShape(cfg);
  }

  /** The impersonation form names the token's subject as
      `requested_subject`; the URL is the configured realm's. */
  lemma ImpersonationRequestShape(cfg: Config, parse: Parser, token: string)
    ensures ImpersonationRequest(cfg, parse, token).form == Form(
      ["grant_type", "client_id", "client_secret", "requested_subject"],
      map["grant_type" := [cfg.tokenExchangeGrantType], "client_id" := [cfg.clientId],
          "client_secret" := [cfg.clientSecret], "requested_subject" := [GetUserId(parse, token)]])
    ensures ImpersonationRequest(cfg, parse, token).url ==
      Text(cfg.keycloakServerURL) + "/realms/" + Text(cfg.keycloakRealm) + "/protocol/openid-connect/token"
  {
    CredentialsFormShape(cfg);
  }

  lemma SuffixCancels(a: string, b: string, suffix: string)
    ensures a + suffix == b + suffix <==> a == b
  {
    if a + suffix == b + suffix {
      assert |a| == |b|;
      assert a == (a + suffix)[..|a|];
      assert b == (b + suffix)[..|b|];
    }
  }

  /** Two tokens get the same exchange endpoint exactly when their issuers
      print the same: tokens from different issuers are sent to different
      servers. */
  lemma ExchangeEndpointFollowsIssuer(cfg: Config, parse: Parser, token1: string, token2: string)
    ensures ExchangeRequest(cfg, parse, token1).url == ExchangeRequest(cfg, parse, token2).url <==>
      Text(ExchangeIssuer(parse(token1))) == Text(ExchangeIssuer(parse(token2)))
  {
    SuffixCancels(Text(ExchangeIssuer(parse(token1))), Text(ExchangeIssuer(parse(token2))), TokenPath);
  }

  /** The impersonation endpoint is the same for every token and every
      parse, whatever issuer the token names. */
  lemma ImpersonationEndpointIgnoresToken(cfg: Config, parse1: Parser, token1: string, parse2: Parser, token2: string)
    ensures ImpersonationRequest(cfg, parse1, token1).url == ImpersonationRequest(cfg, parse2, token2).url
  {
  }

  /** A reply `{"access_token": "t", …}` yields `t` in both flows; a reply
      without the field yields ""; a JSON null yields the text "null". */
  lemma AccessTokenFromReply(readTree: JsonReader, body: string, fields: map<string, Json>)
    requires readTree(body) == Some(JObject(fields))
    ensures "access_token" in fields && fields["access_token"].JText? ==>
      ExchangeReply(Ok(Some(body)), readTree) == Returned(fields["access_token"].s) &&
      ImpersonationReply(Ok(Some(body)), readTree) == Returned(fields["access_token"].s)
    ensures "access_token" !in fields ==>
      ExchangeReply(Ok(Some(body)), readTree) == Returned("") &&
      ImpersonationReply(Ok(Some(body)), readTree) == Returned("")
    ensures "access_token" in fields && fields["access_token"] == JNull ==>
      ExchangeReply(Ok(Some(body)), readTree) == Returned("null") &&
      ImpersonationReply(Ok(Some(body)), readTree) == Returned("null")
  {
  }

  /** The two flows treat every POST outcome alike except a null body, which
      exchange turns into "" and impersonation lets escape. */
  lemma RepliesDifferOnlyOnNullBody(response: HttpOutcome, readTree: JsonReader)
    ensures response != Ok(None) ==> ExchangeReply(response, readTree) == ImpersonationReply(response, readTree)
    ensures response == Ok(None) ==>
      ExchangeReply(response, readTree) == Returned("") &&
      ImpersonationReply(response, readTree) == Threw(IllegalArgumentException)
  {
  }

  /** An unparsable token, or one without `iss`, gives exchange a URL without
      a scheme; a transport that refuses it makes `exchangeToken` throw
      `IllegalArgumentException`, which its handler does not catch. */
  lemma ExchangeWithoutIssuerEscapes(cfg: Config, parse: Parser, readTree: JsonReader, send: Transport, token: string)
    requires RejectsRelative(send)
    requires parse(token).None? || parse(token).value.iss.None?
    ensures ExchangeReply(send(ExchangeRequest(cfg, parse, token)), readTree) == Threw(IllegalArgumentException)
  {
    var request := ExchangeRequest(cfg, parse, token);
    assert request.url == TokenPath || request.url == "null" + TokenPath;
    assert send(TokenRequest(request.url, request.form)) == Failed(IllegalArgumentException);
  }
}
