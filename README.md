# Token acquisition of the Apigee management API client

A Dafny model of `MgmtAPIClient`, the part of the Apigee management API SDK
that obtains OAuth 2.0 access tokens for the deploy plugin. The client offers
four `getAccessToken` overloads, `getAccessTokenFromRefreshToken`, and
`getConfigProperties`:

- The base exchange posts the resource-owner password grant (section 4.3.2
  of RFC 6749) to a token URL. The client authenticates with HTTP Basic
  (section 2 of RFC 7617) over base64 (section 4 of RFC 4648). The result is
  the parsed JSON body when the endpoint answers 200 OK, and an empty token
  for any other returned status.
- The six-argument overload appends `?mfa_token=<mfa>` to the URL and calls
  the base exchange.
- The two-argument overload reads the login URL and the client credentials
  from a configuration file and calls the base exchange.
- The three-argument overload reads the MFA URL and the client credentials
  from the configuration, checks the MFA code, and calls the base exchange
  with the code appended to the MFA URL.
- The refresh exchange posts the refresh-token grant (section 6 of RFC 6749)
  with the same headers and the same status check.
- `getConfigProperties` resolves the configuration. It needs the
  `configFile.path` system property, which must not be blank. It fails with
  a `ConfigurationException` when the property is blank, when loading
  throws a `BeansException` (which it wraps), or when loading yields no
  environment. Any other exception from loading reaches the caller
  unwrapped.

Modules:

- `Wrappers`: `Option` and `Result`.
- `Octets`: octets, and ISO-8859-1 as the one concrete charset.
- `Base64`: the RFC 4648 encoder and a strict decoder. Decoding inverts
  encoding, and every accepted text is the encoding of what it decodes to.
- `JavaText`: nullable Java strings (`JString`), how string concatenation
  renders null as `"null"`, and `StringUtils.isBlank`.
- `BasicAuth`: the `Authorization` value and how a receiver reads the
  credentials back from it.
- `TokenModel`: the access token, the request, the transport's answer, and
  the errors.
- `MgmtApiClient`: the operations.

Everything the client reads from outside itself is an input: a `Runtime`
value. It holds the `configFile.path` property, the outcome of loading the
configuration, the platform charset, the HTTP transport (a function from
request to answer) and the JSON parser (a function from body to token). Each
operation returns its result and the requests it handed to the transport.
That is how the model states that no request is made when configuration or
the MFA check fails.

Behaviour of the code that the model keeps:

- The three-argument MFA overload does not go through the six-argument one.
  It posts to the configured MFA URL with the code appended directly, and
  inserts no `?mfa_token=` (line 72).
- In that overload, configuration is resolved before the MFA code is
  checked, so a configuration error wins over an empty code (lines 63-71).
- `getConfigProperties` never returns null: it either returns the loaded
  environment or throws. The model resolves the configuration to a nullable
  environment and proves that a successful resolution is never null. The
  `env == null` branch at line 64 is therefore dead, and the model proves that
  the "Config file missing" error never results.
- An exception thrown by the transport is not caught. It reaches the caller
  as a transport error. It does not become an empty token.
- Spring's default error handler throws on 4xx and 5xx answers before the
  status check at line 129, so with it those answers never produce the
  empty token. The transport input may answer them with a transport failure,
  as Spring does. The model does not force that: a 401 or 500 response that
  the transport does return gives the empty token, as line 129 reads.

## Model

| member | source | states |
|---|---|---|
| MgmtApiClient.GetAccessToken | src/main/java/com/apigee/mgmtapi/sdk/client/MgmtAPIClient.java:109-137 | Exactly one request is posted. It goes to `url` unchanged, with the Basic `Authorization` header, then `Content-Type: application/x-www-form-urlencoded`, and the form `username`, `password`, `grant_type=password` in that order and nothing else. The result is the transport's answer classified by `Classify`. |
| MgmtApiClient.GetAccessTokenFromRefreshToken | src/main/java/com/apigee/mgmtapi/sdk/client/MgmtAPIClient.java:149-169 | Exactly one request is posted, with the same headers and the form `refresh_token`, `grant_type=refresh_token` in that order and nothing else. The result is classified the same way. |
| MgmtApiClient.GetAccessTokenWithMfa | src/main/java/com/apigee/mgmtapi/sdk/client/MgmtAPIClient.java:89-96 | Posts the password grant to exactly `url + "?mfa_token=" + mfa`, with no escaping and no query merging. Null renders as "null". Client id, secret, username and password pass through unchanged. |
| MgmtApiClient.GetAccessTokenFromConfig | src/main/java/com/apigee/mgmtapi/sdk/client/MgmtAPIClient.java:44-49 | A configuration failure, or an exception loading throws, is returned with no request made. Otherwise it posts the password grant to `mgmt.login.url` with `mgmt.login.client.id` and `mgmt.login.client.secret` in those positions, each null when its key is missing. No request is made exactly when the result is an error raised before the request. |
| MgmtApiClient.GetAccessTokenWithMfaFromConfig | src/main/java/com/apigee/mgmtapi/sdk/client/MgmtAPIClient.java:62-74 | Configuration errors and loading exceptions come first, then "mfa cannot be empty" for a null or empty code. All of these fail with no request. Otherwise it posts to `mgmt.login.mfa.url + mfa` through the base exchange, with no `?mfa_token=`. No request is made exactly when the result is an error raised before the request. The "Config file missing" error never results. |
| MgmtApiClient.GetConfigProperties | src/main/java/com/apigee/mgmtapi/sdk/client/MgmtAPIClient.java:178-197 | Configuration resolves exactly when the path is not blank and loading returned an environment, and then to that environment, which is never null. Otherwise it fails at the first check that fails: the blank path, a `BeansException` wrapped as a configuration error with its message kept as the cause, or the null environment. Any other exception from loading passes through unwrapped. |
| MgmtApiClient.BlankPathSkipsLoading | src/main/java/com/apigee/mgmtapi/sdk/client/MgmtAPIClient.java:180-182 | A blank `configFile.path` fails before loading: the outcome does not depend on what loading would do. |
| MgmtApiClient.TokenHeadersCarryCredentials | src/main/java/com/apigee/mgmtapi/sdk/client/MgmtAPIClient.java:120-122 | Both grants send two headers. The first is an `Authorization` value "Basic " whose base64 text decodes to exactly the charset's octets of `clientId:clientSecret`. The second is the form content type. |
| MgmtApiClient.Classify | src/main/java/com/apigee/mgmtapi/sdk/client/MgmtAPIClient.java:128-135 | A returned response never becomes an error. A 200 gives the parsed body and any other status the empty token. Only a transport failure is an error, and it is passed on unchanged. |
| MgmtApiClient.ParsedExactlyWhenOk | src/main/java/com/apigee/mgmtapi/sdk/client/MgmtAPIClient.java:129-133 | The body is parsed into the result, whatever the parser, if and only if the status is 200. |
| BasicAuth.AuthorizationValue | src/main/java/com/apigee/mgmtapi/sdk/client/MgmtAPIClient.java:120-121 | The header value starts with the scheme "Basic ". |
| BasicAuth.AuthorizationDecodes | src/main/java/com/apigee/mgmtapi/sdk/client/MgmtAPIClient.java:120-121 | The text after "Basic " decodes to exactly the charset's octets of the id, a colon and the secret. |
| BasicAuth.SplitRecovers | src/main/java/com/apigee/mgmtapi/sdk/client/MgmtAPIClient.java:120-121 | Splitting `id:secret` at the first colon recovers `id` and `secret` if and only if `id` has no colon. |
| BasicAuth.Latin1CredentialsRoundTrip | src/main/java/com/apigee/mgmtapi/sdk/client/MgmtAPIClient.java:120-121 | With ISO-8859-1 as the charset, a receiver recovers the client id and secret exactly if and only if the id has no colon and ISO-8859-1 can represent every char of both. Any other char reaches the receiver as '?'. |
| Base64.Encode | src/main/java/com/apigee/mgmtapi/sdk/client/MgmtAPIClient.java:121 | The encoding has four characters per started group of three octets. |
| Base64.DigitChar | src/main/java/com/apigee/mgmtapi/sdk/client/MgmtAPIClient.java:121 | Each value has a character in the alphabet other than the pad, and that character decodes to the value. |
| Base64.DecodeEncode | src/main/java/com/apigee/mgmtapi/sdk/client/MgmtAPIClient.java:121 | Decoding an encoding gives back the octets exactly. |
| Base64.EncodeDecode | src/main/java/com/apigee/mgmtapi/sdk/client/MgmtAPIClient.java:121 | Every text the decoder accepts is the encoding of what it decodes to. |
| Base64.TestVectors | src/main/java/com/apigee/mgmtapi/sdk/client/MgmtAPIClient.java:121 | The encoder gives the seven test vectors of section 10 of RFC 4648, from "" to "Zm9vYmFy". |
| Base64.TestVectorDecodes | src/main/java/com/apigee/mgmtapi/sdk/client/MgmtAPIClient.java:121 | The decoder reads "Zm9vYmFy" back as "foobar". |

## Left out

- HTTP transport: `RestTemplate.postForEntity` is the `post` input. Spring's default error handler throws on 4xx and 5xx answers. The input may answer them with a transport failure, as Spring does, but the model does not require it. Redirects, timeouts and TLS belong to the transport and are not modelled.
- JSON parsing: Gson is the `parse` input, a total function from body to token. It does not model Gson returning null for an empty body, a null response body, or a malformed body raising `JsonSyntaxException`.
- The `AccessToken` class is not part of this model. Its fields follow the members of the token endpoint's JSON object.
- Configuration loading: the Spring context, the `FileService` bean and `System.getProperty` are the `configPath` and `configLoad` inputs. An exception from loading that is not a `BeansException`, such as a `ClassCastException` from the bean cast at line 187, is one `UncaughtException` outcome carrying its description; the exception classes themselves are not modelled. `ConfigurationException` is not part of this model. It is taken not to be a `BeansException`, so the null-environment error at line 190 passes through the catch unwrapped.
- SLF4J logging at lines 65, 69 and 194: it has no effect on any result.
- Platform charset of `getBytes()`: it is the `charset` input. BasicAuth.Latin1CredentialsRoundTrip: the string-level credential round trip is proved for ISO-8859-1 only. The octet-level round trip holds for every charset.
- Java bytes are signed. The model uses octets 0-255, the values base64 works on.
- Dafny chars are Unicode scalar values, so Java strings with unpaired surrogate code units cannot be represented.
- Construction of a fresh `RestTemplate` per call: it holds no state across calls, so it has no observable effect.
- The live-network integration test `TestGetRevisionWithBearer` only calls the five-argument overload. There is nothing in it to model.
