/**
  The token-acquisition logic of the management API client: four ways to ask
  the token endpoint for an access token with the OAuth 2.0 resource-owner
  password grant (section 4.3.2 of RFC 6749), one with the refresh-token
  grant (section 6 of RFC 6749), and the configuration lookup the two
  configuration-driven ways share.

  Everything the client reads from outside itself is an explicit input, a
  `Runtime`: the `configFile.path` system property, what loading that file
  ends in, the platform charset, the HTTP transport and the JSON parser. Each
  operation returns, besides its result, the requests it handed to the
  transport, so that "no request was made" can be stated.
*/
module MgmtApiClient {
  import opened Wrappers
  import opened Octets
  import opened JavaText
  import opened TokenModel
  import Base64
  import BasicAuth

  const LoginUrlKey: string := "mgmt.login.url"
  const MfaUrlKey: string := "mgmt.login.mfa.url"
  const ClientIdKey: string := "mgmt.login.client.id"
  const ClientSecretKey: string := "mgmt.login.client.secret"

  const FormContentType: string := "application/x-www-form-urlencoded"
  const MfaQuery: string := "?mfa_token="

  const PathNotConfigured: string := "Configuration file system property 'configFile.path' is not configured."
  const LoadedNull: string := "Loaded configuration is null."
  const LoadFailed: string := "Something went wrong loading configuration"
  const MfaEmpty: string := "mfa cannot be empty"
  const ConfigFileMissing: string := "Config file missing"

  /** The loaded configuration: property names to values. */
  type Environment = map<string, string>

  /** `Environment.getProperty`: the value, or null for a key the file does not define. */
  function GetProperty(env: Environment, key: string): (r: JString)
    ensures r.Some? <==> key in env
    ensures r.Some? ==> r.value == env[key]
  {
    if key in env then Some(env[key]) else None
  }

  /**
    What building the application context, looking up its file service and
    asking it for the environment ends in: the environment it returned
    (possibly null), a `BeansException` with its message, or any other
    unchecked exception (the bean cast failing, the file service throwing),
    which the client does not catch.
  */
  datatype ConfigLoad =
    | Loaded(env: Option<Environment>)
    | BeansFailure(message: string)
    | OtherFailure(reason: string)

  /** Everything the client reads from outside itself, fixed for one call. */
  datatype Runtime = Runtime(
    configPath: JString,                 // System.getProperty("configFile.path")
    configLoad: ConfigLoad,              // loading the file it names
    charset: BasicAuth.Charset,          // the platform default charset of getBytes()
    post: Request -> Exchange,           // RestTemplate.postForEntity
    parse: string -> AccessToken)        // Gson.fromJson(body, AccessToken.class)

  // ---------------------------------------------------------------------------
  // Configuration

  /**
    `getConfigProperties`: the blank-path check, then loading, then the null
    check. It never returns null: it resolves exactly when the path property
    is not blank and loading returned an environment, and then to that
    environment. Its failures are `ConfigurationError`s with the three
    messages in the order the checks are made; only an exception other than
    a `BeansException` escapes from loading unwrapped.
  */
  function GetConfigProperties(configPath: JString, load: ConfigLoad): (r: Result<Option<Environment>, ClientError>)
    ensures r.Ok? ==> r.value.Some?
    ensures r.Ok? <==> !IsBlank(configPath) && load.Loaded? && load.env.Some?
    ensures r.Ok? ==> r.value == load.env
    ensures IsBlank(configPath) ==> r == Err(ConfigurationError(PathNotConfigured, None))
    ensures !IsBlank(configPath) && load == Loaded(None) ==> r == Err(ConfigurationError(LoadedNull, None))
    ensures !IsBlank(configPath) && load.BeansFailure? ==> r == Err(ConfigurationError(LoadFailed, Some(load.message)))
    ensures !IsBlank(configPath) && load.OtherFailure? ==> r == Err(UncaughtException(load.reason))
  {
    if IsBlank(configPath) then Err(ConfigurationError(PathNotConfigured, None))
    else match load
      case OtherFailure(reason) => Err(UncaughtException(reason))
      case BeansFailure(message) => Err(ConfigurationError(LoadFailed, Some(message)))
      case Loaded(None) => Err(ConfigurationError(LoadedNull, None))
      case Loaded(Some(env)) => Ok(Some(env))
  }

  /** A blank path fails before anything is loaded: what loading would end in makes no difference. */
  lemma BlankPathSkipsLoading(configPath: JString, load1: ConfigLoad, load2: ConfigLoad)
    requires IsBlank(configPath)
    ensures GetConfigProperties(configPath, load1) == GetConfigProperties(configPath, load2)
  {
  }

  // ---------------------------------------------------------------------------
  // Requests

  /** The headers of both grants: HTTP Basic client authentication, then the form content type. */
  function TokenHeaders(charset: BasicAuth.Charset, clientId: JString, clientSecret: JString): (h: seq<Header>)
  {
    [("Authorization", BasicAuth.AuthorizationValue(charset, clientId, clientSecret)),
     ("Content-Type", FormContentType)]
  }

  /** The resource-owner password grant request of section 4.3.2 of RFC 6749. */
  function PasswordGrantRequest(charset: BasicAuth.Charset, url: JString, clientId: JString, clientSecret: JString,
                                username: JString, password: JString): (r: Request)
  {
    Request(url, TokenHeaders(charset, clientId, clientSecret),
            [("username", username), ("password", password), ("grant_type", Some("password"))])
  }

  /** The refresh-token grant request of section 6 of RFC 6749. */
  function RefreshGrantRequest(charset: BasicAuth.Charset, url: JString, clientId: JString, clientSecret: JString,
                               refreshToken: JString): (r: Request)
  {
    Request(url, TokenHeaders(charset, clientId, clientSecret),
            [("refresh_token", refreshToken), ("grant_type", Some("refresh_token"))])
  }

  /**
    Both grants authenticate the client the same way: two headers, the first
    an `Authorization` value "Basic " whose base64 text decodes to exactly the
    charset's octets of `clientId:clientSecret`, the second the form content
    type.
  */
  lemma TokenHeadersCarryCredentials(charset: BasicAuth.Charset, clientId: JString, clientSecret: JString)
    ensures var h := TokenHeaders(charset, clientId, clientSecret);
            && |h| == 2
            && h[0].0 == "Authorization" && h[1] == ("Content-Type", FormContentType)
            && h[0].1[..|BasicAuth.Scheme|] == BasicAuth.Scheme
            && Base64.Decode(h[0].1[|BasicAuth.Scheme|..]) == Some(charset(BasicAuth.UserPass(clientId, clientSecret)))
  {
    BasicAuth.AuthorizationDecodes(charset, clientId, clientSecret);
  }

  // ---------------------------------------------------------------------------
  // Responses

  /**
    The status check both exchanges make after the POST returns. A returned
    response never becomes an error: a 200 gives the parsed body, any other
    status the empty token; only a transport failure is an error, and it is
    passed on unchanged.
  */
  function Classify(answer: Exchange, parse: string -> AccessToken): (r: Result<AccessToken, ClientError>)
    ensures r.Err? <==> answer.TransportFailure?
    ensures answer.TransportFailure? ==> r == Err(TransportError(answer.reason))
    ensures answer.Response? && answer.status == StatusOk ==> r == Ok(parse(answer.body))
    ensures answer.Response? && answer.status != StatusOk ==> r == Ok(EmptyToken)
  {
    match answer
    case TransportFailure(reason) => Err(TransportError(reason))
    case Response(status, body) => if status == StatusOk then Ok(parse(body)) else Ok(EmptyToken)
  }

  /** The body is parsed, whatever the parser, exactly when the status is 200. */
  lemma ParsedExactlyWhenOk(status: int, body: string)
    ensures (forall parse: string -> AccessToken :: Classify(Response(status, body), parse) == Ok(parse(body)))
            <==> status == StatusOk
  {
    if status != StatusOk {
      var issued := AccessToken(Some(body), None, None, None, None);
      var parse := (_: string) => issued;
      assert Classify(Response(status, body), parse) != Ok(parse(body));
    }
  }

  // ---------------------------------------------------------------------------
  // The exchanges

  /**
    The base exchange: the password grant posted to `url`. It builds the
    headers and the form field by field, posts once, and returns the parsed
    body on 200 and the empty token on any other status.
  */
  method GetAccessToken(rt: Runtime, url: JString, clientId: JString, clientSecret: JString,
                        username: JString, password: JString)
    returns (result: Result<AccessToken, ClientError>, sent: seq<Request>)
    ensures sent == [PasswordGrantRequest(rt.charset, url, clientId, clientSecret, username, password)]
    ensures result == Classify(rt.post(sent[0]), rt.parse)
  {
    var headers: seq<Header> := [];
    var token := EmptyToken;
    headers := headers + [("Authorization", BasicAuth.AuthorizationValue(rt.charset, clientId, clientSecret))];
    headers := headers + [("Content-Type", FormContentType)];
    var form: seq<FormField> := [];
    form := form + [("username", username)];
    form := form + [("password", password)];
    form := form + [("grant_type", Some("password"))];
    assert headers == TokenHeaders(rt.charset, clientId, clientSecret);
    var request := Request(url, headers, form);
    assert request == PasswordGrantRequest(rt.charset, url, clientId, clientSecret, username, password);
    sent := [request];
    match rt.post(request)
    case TransportFailure(reason) =>
      result := Err(TransportError(reason));
    case Response(status, body) =>
      if status == StatusOk {
        token := rt.parse(body);
      }
      result := Ok(token);
  }

  /** The refresh-token exchange: the same headers and status check, with the refresh grant's form. */
  method GetAccessTokenFromRefreshToken(rt: Runtime, url: JString, clientId: JString, clientSecret: JString,
                                        refreshToken: JString)
    returns (result: Result<AccessToken, ClientError>, sent: seq<Request>)
    ensures sent == [RefreshGrantRequest(rt.charset, url, clientId, clientSecret, refreshToken)]
    ensures result == Classify(rt.post(sent[0]), rt.parse)
  {
    var headers: seq<Header> := [];
    var token := EmptyToken;
    headers := headers + [("Authorization", BasicAuth.AuthorizationValue(rt.charset, clientId, clientSecret))];
    headers := headers + [("Content-Type", FormContentType)];
    var form: seq<FormField> := [];
    form := form + [("refresh_token", refreshToken)];
    form := form + [("grant_type", Some("refresh_token"))];
    assert headers == TokenHeaders(rt.charset, clientId, clientSecret);
    var request := Request(url, headers, form);
    assert request == RefreshGrantRequest(rt.charset, url, clientId, clientSecret, refreshToken);
    sent := [request];
    match rt.post(request)
    case TransportFailure(reason) =>
      result := Err(TransportError(reason));
    case Response(status, body) =>
      if status == StatusOk {
        token := rt.parse(body);
      }
      result := Ok(token);
  }

  /**
    The password grant with a second factor given as a query parameter: the
    URL is `url`, "?mfa_token=" and `mfa` glued together as they are, with no
    escaping and no merging into a query `url` may already have; the other
    arguments pass through unchanged.
  */
  method GetAccessTokenWithMfa(rt: Runtime, url: JString, clientId: JString, clientSecret: JString,
                               username: JString, password: JString, mfa: JString)
    returns (result: Result<AccessToken, ClientError>, sent: seq<Request>)
    ensures sent == [PasswordGrantRequest(rt.charset, Some(Str(url) + MfaQuery + Str(mfa)),
                                          clientId, clientSecret, username, password)]
    ensures result == Classify(rt.post(sent[0]), rt.parse)
  {
    result, sent := GetAccessToken(rt, Some(Str(url) + MfaQuery + Str(mfa)), clientId, clientSecret, username, password);
  }

  /**
    The password grant against the configured login URL with the configured
    client credentials. A configuration failure is returned before any
    request is made.
  */
  method GetAccessTokenFromConfig(rt: Runtime, username: JString, password: JString)
    returns (result: Result<AccessToken, ClientError>, sent: seq<Request>)
    ensures match GetConfigProperties(rt.configPath, rt.configLoad)
            case Err(e) => result == Err(e) && sent == []
            case Ok(env) =>
              && sent == [PasswordGrantRequest(rt.charset, GetProperty(env.value, LoginUrlKey),
                                               GetProperty(env.value, ClientIdKey),
                                               GetProperty(env.value, ClientSecretKey), username, password)]
              && result == Classify(rt.post(sent[0]), rt.parse)
    ensures sent == [] <==> result.Err? && !result.error.TransportError?
  {
    var config := GetConfigProperties(rt.configPath, rt.configLoad);
    if config.Err? {
      result, sent := Err(config.error), [];
      return;
    }
    var env := config.value.value;
    result, sent := GetAccessToken(rt, GetProperty(env, LoginUrlKey), GetProperty(env, ClientIdKey),
                                   GetProperty(env, ClientSecretKey), username, password);
  }

  /**
    The password grant against the configured MFA URL. Configuration is
    resolved first, then the resolved environment is checked for null, then
    `mfa` must be neither null nor empty; each failure is returned before any
    request is made. The URL is the configured MFA URL with `mfa` appended
    directly, and the request goes to the base exchange, not through
    `GetAccessTokenWithMfa`, so no "?mfa_token=" is inserted. Configuration
    never resolves to null, so the null check never fails and the "Config
    file missing" error never results.
  */
  method GetAccessTokenWithMfaFromConfig(rt: Runtime, username: JString, password: JString, mfa: JString)
    returns (result: Result<AccessToken, ClientError>, sent: seq<Request>)
    ensures match GetConfigProperties(rt.configPath, rt.configLoad)
            case Err(e) => result == Err(e) && sent == []
            case Ok(env) =>
              if mfa.None? || mfa.value == "" then
                result == Err(ConfigurationError(MfaEmpty, None)) && sent == []
              else
                && sent == [PasswordGrantRequest(rt.charset, Some(Str(GetProperty(env.value, MfaUrlKey)) + mfa.value),
                                                 GetProperty(env.value, ClientIdKey),
                                                 GetProperty(env.value, ClientSecretKey), username, password)]
                && result == Classify(rt.post(sent[0]), rt.parse)
    ensures sent == [] <==> result.Err? && !result.error.TransportError?
    ensures result != Err(ConfigurationError(ConfigFileMissing, None))
  {
    var config := GetConfigProperties(rt.configPath, rt.configLoad);
    if config.Err? {
      result, sent := Err(config.error), [];
      return;
    }
    if config.value.None? {
      // the "Config file missing" exit: GetConfigProperties never resolves to null
      assert false;
    }
    var env := config.value.value;
    if mfa.None? || mfa.value == "" {
      result, sent := Err(ConfigurationError(MfaEmpty, None)), [];
      return;
    }
    result, sent := GetAccessToken(rt, Some(Str(GetProperty(env, MfaUrlKey)) + mfa.value), GetProperty(env, ClientIdKey),
                                   GetProperty(env, ClientSecretKey), username, password);
  }
}
