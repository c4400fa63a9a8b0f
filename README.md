# Token service model

A Dafny model of `TokenService`, the token-handling class of an identity-aware
backend that works with a Keycloak OpenID Connect provider. The class does
four things:

- **Claims reader.** It reads claims out of a bearer token: expiry, expiry
  date, subject, token id, audience, realm roles and groups. Each accessor
  parses the token again, starts from a default value, and overwrites that
  default only when the parse succeeds. Only `ParseException` is caught.
- **Role and group trimming.** `extractRoles` trims the printed form of
  `realm_access.roles`. It drops the outer brackets, splits the rest on `,`,
  and drops the quotes around each piece. `extractGroups` drops the first
  character of each group path.
- **Delegated-token requester.** `exchangeToken` and `impersonateUser` each
  build a four-field form and POST it to a token endpoint.
  - Exchange posts to the endpoint of the token's own `iss` claim.
  - Impersonation posts to the configured realm, whatever the token says.
- **Response field extractor.** `extractFieldFromKeycloakResponse` returns the
  text of one top-level field of the JSON reply, or `""`.

Code that the class only calls is modelled as parameters:

- JWT decoding (`JWTParser.parse(token).getJWTClaimsSet()`) is a function
  `parse: string -> Option<ClaimSet>`, where `None` is a `ParseException`.
- The JSON reader is a function `readTree: string -> Option<Json>`.
- The HTTP POST is a function `send: TokenRequest -> HttpOutcome`.
- The wall clock is an integer `now`.

Java's exceptions are kept apart from normal results. Every operation that can
throw returns `Outcome<T> = Returned(value) | Threw(exception)`. Every `try`
is modelled with the exact set of exceptions it catches, so the model shows
which failures become a default value and which escape to the caller. Java
`null` is `None`. String `+` turns null into `"null"` (`JavaLang.Text`).

Modules:

- `JavaLang` covers `Outcome`, the catch, `Date.after` and `String.substring`.
- `JavaSplit` covers `String.split` on one separator character. With no
  separator present the string splits into itself. Otherwise it splits into
  every piece, and trailing empty pieces are dropped.
- `Claims` holds the claim set and the claim accessors.
- `RolesAndGroups` holds the two list-building methods. Their loops are
  proved against the pure specification `MapEach`.
- `ResponseField` holds the JSON tree and the field extractor.
- `FormBody` models `LinkedMultiValueMap`: a class whose `Add` is proved
  against the pure `Added`.
- `DelegatedToken` holds the two flows.

Behaviour of the code worth knowing before reading the contracts:

- A missing `exp` claim is not treated as "not expired": `current.after(null)`
  throws a `NullPointerException` that is not caught
  (JWTCummonMethods.java:41-44). `IsTokenExpired` returns `Threw` there.
- Not every failure becomes an empty value. These escape to the caller:
  - a missing `realm_access` or `groups` claim (null pointer);
  - roles text or group names too short to trim (string index);
  - a POST to a URL without a scheme (`IllegalArgumentException`), which
    exchange builds from an unparsable token or a token without `iss`;
  - a null reply body in impersonation, which the JSON reader rejects
    (`IllegalArgumentException`);
  - any other POST failure except a 4xx reply.
- An absent claim and an unparsable token are told apart: `getUserId` and
  `getJTI` return `""` for an unparsable token and null for a token without
  the claim.
- Roles are read by trimming the printed text of the claim, not by parsing it
  as an array.

## Model

| member | source | states |
|---|---|---|
| `Claims.IsTokenExpired` | JWTCummonMethods.java:34-48 | `false` when the token does not parse. When the token parses with no `exp`, a `NullPointerException` that escapes. Otherwise `true` exactly when `now` is strictly after `exp`. |
| `Claims.NotExpiredAtExpiry` | JWTCummonMethods.java:39-43 | A token whose `exp` equals `now` is not expired. |
| `Claims.ExpiryIsMonotone` | JWTCummonMethods.java:39-43 | A token expired at `now` is still expired at every later instant. |
| `Claims.ExpiredAgreesWithExpiryDate` | JWTCummonMethods.java:34-62 | `isTokenExpired` is true exactly when `getTokenExpirydate` gives a date that `now` has passed. It throws exactly when the token parses and the date is null. |
| `Claims.GetTokenExpiryDate` | JWTCummonMethods.java:52-62 | null for an unparsable token, otherwise the `exp` claim unchanged. |
| `Claims.GetUserId` | JWTCummonMethods.java:154-164 | `""` for an unparsable token, otherwise the `sub` claim unchanged (null when it is absent). |
| `Claims.GetJti` | JWTCummonMethods.java:206-216 | `""` for an unparsable token, otherwise the `jti` claim unchanged. |
| `Claims.GetAudience` | JWTCummonMethods.java:221-231 | The empty list for an unparsable token, otherwise the audience list unchanged. |
| `RolesAndGroups.DefaultsWhenUnparsable` | JWTCummonMethods.java:34-231 | On a token that does not parse, every accessor returns its starting default: `false`, null date, `""`, `""`, the empty audience, and empty roles and groups. |
| `RolesAndGroups.TrimEach` | JWTCummonMethods.java:176-178 | The trimming loop returns exactly `MapEach`: each element's result in order, or the first exception raised. |
| `RolesAndGroups.MapEachShape` | JWTCummonMethods.java:176-178 | The loop succeeds exactly when every element's trimming succeeds. It then has one result per element, at the same position. |
| `RolesAndGroups.TrimmingThrowsOnlyIndexErrors` | JWTCummonMethods.java:177 | Trimming only ever raises `StringIndexOutOfBoundsException`, so the `ParseException` handler never swallows it. |
| `RolesAndGroups.ExtractRoles` | JWTCummonMethods.java:169-183 | The method returns or throws exactly what `RolesOf` says for the parse of the token. |
| `RolesAndGroups.RolesOutcomes` | JWTCummonMethods.java:171-182 | The results of `extractRoles`: empty for an unparsable token or a `realm_access` of the wrong type. A missing `realm_access` or missing `roles` entry raises `NullPointerException`. Otherwise, the trimmed roles text. |
| `RolesAndGroups.RolesFromTextShape` | JWTCummonMethods.java:175-178 | Text shorter than 2 characters raises an index error. Otherwise the result has one role per `split(",")` piece of the text without its outer characters. Each role is its piece minus the first and last character. Any piece shorter than 2 raises an index error. |
| `RolesAndGroups.RolesRoundTrip` | JWTCummonMethods.java:175-178 | For at least one comma-free role, the text `["r1",…,"rn"]` yields exactly `[r1,…,rn]`, in order. |
| `RolesAndGroups.EmptyRolesListThrows` | JWTCummonMethods.java:175-178 | As written, the empty list `[]` raises `StringIndexOutOfBoundsException` instead of giving no roles. |
| `RolesAndGroups.IntendedRolesRoundTrip` | JWTCummonMethods.java:175-178 | The corrected trimming round-trips every list of comma-free roles, the empty list included. On every non-empty list it agrees with the code as written. |
| `RolesAndGroups.ExtractGroups` | JWTCummonMethods.java:188-201 | The method returns or throws exactly what `GroupsOf` says for the parse of the token. |
| `RolesAndGroups.GroupsOutcomes` | JWTCummonMethods.java:190-200 | The results of `extractGroups`: empty for an unparsable token or a `groups` claim of the wrong type. A missing `groups` claim raises `NullPointerException`. Otherwise, the trimmed groups. |
| `RolesAndGroups.GroupsShape` | JWTCummonMethods.java:193-196 | The result keeps the order and length of the groups, and each output is its group minus the first character. An empty group name raises an index error. |
| `RolesAndGroups.GroupsRoundTrip` | JWTCummonMethods.java:194-196 | Group paths that all start with one lead character (`/`) give back the bare names, in order. |
| `RolesAndGroups.ParsedRolesAndGroups` | JWTCummonMethods.java:169-201 | A parsed token carrying printed roles and `/`-prefixed groups yields those roles and group names verbatim. |
| `JavaSplit.PiecesOfJoin` | JWTCummonMethods.java:175 | Splitting text joined with commas gives back its comma-free pieces. |
| `JavaSplit.JoinOfPieces` | JWTCummonMethods.java:175 | The pieces of any text are comma-free and join back to the text. |
| `JavaSplit.SplitOfJoin` | JWTCummonMethods.java:175 | `split` undoes a join whose last piece is not empty, including the single-piece case with no separator. |
| `JavaLang.DateAfter` | JWTCummonMethods.java:41 | `after` holds exactly when the current instant is strictly later. A null argument raises `NullPointerException`. |
| `JavaLang.Substring` | JWTCummonMethods.java:175 | `substring(b, e)` succeeds exactly when `0 <= b <= e <= length`, and then returns the `e - b` characters from position `b`. Otherwise it raises an index error. |
| `JavaLang.SubstringFrom` | JWTCummonMethods.java:195 | `substring(b)` succeeds exactly when `0 <= b <= length`, and then returns the characters from position `b` on. Otherwise it raises an index error. |
| `JavaSplit.DropTrailingEmpty` | JWTCummonMethods.java:175 | The result is a prefix of the pieces that ends in a non-empty piece or is empty, and every dropped piece is empty. |
| `JavaSplit.Split` | JWTCummonMethods.java:175 | `split(",")` gives separator-free pieces. Text without a comma is its own only piece. Otherwise the result is every comma-separated piece up to the last non-empty one. |
| `JavaLang.Text` | JWTCummonMethods.java:88 | String concatenation prints a null string as `"null"`. |
| `ResponseField.AsText` | JWTCummonMethods.java:143 | `asText()` gives a text node's text, a number's printed text, `"true"` or `"false"`, `"null"` for a JSON null, and `""` for an array or an object. |
| `ResponseField.ExtractNullableField` | JWTCummonMethods.java:139-144 | A null text makes the reader throw `IllegalArgumentException`, which the method does not catch. Any other text is handled as `ExtractField` says. |
| `ResponseField.ExtractField` | JWTCummonMethods.java:138-149 | The text of the named top-level field when the reply is an object holding it. Otherwise `""`: malformed JSON, no value, not an object, or no such field. |
| `ResponseField.ExtractTextField` | JWTCummonMethods.java:141-143 | A reply `{"field": "t", …}` yields `t`. |
| `ResponseField.NonEmptyMeansPresent` | JWTCummonMethods.java:138-149 | A non-empty result always is the text of a field that is present. |
| `FormBody.AddedKeepsInvariant` | JWTCummonMethods.java:72-76 | `add` keeps every key listed once. It puts a new key last and extends only that key's list of values. |
| `FormBody.MultiValueMap.constructor` | JWTCummonMethods.java:72 | A new form body is empty and well formed. |
| `FormBody.MultiValueMap.Add` | JWTCummonMethods.java:73-76 | The object's new contents are exactly `Added` of its old contents, and its invariant is kept. |
| `DelegatedToken.CredentialsFormShape` | JWTCummonMethods.java:73-75 | The first three `add` calls give `grant_type`, `client_id`, `client_secret`, in that order, one configured value each. |
| `DelegatedToken.ExchangeRequestShape` | JWTCummonMethods.java:72-88 | The exchange form is `grant_type`, `client_id`, `client_secret`, `subject_token` in that order, with `subject_token` equal to the input token. The URL is the token's `iss` followed by `/protocol/openid-connect/token`. An unparsable token leaves the issuer `""`. A missing `iss` prints as `"null"`. |
| `DelegatedToken.ExchangeEndpointFollowsIssuer` | JWTCummonMethods.java:77-88 | Two tokens are sent to the same URL exactly when their issuers print the same, so tokens of different issuers go to different endpoints. |
| `DelegatedToken.ImpersonationRequestShape` | JWTCummonMethods.java:107-121 | The impersonation form is the same three credentials plus `requested_subject` equal to `getUserId(token)`. The URL is `keycloakServerURL + "/realms/" + keycloakRealm + "/protocol/openid-connect/token"`. |
| `DelegatedToken.ImpersonationEndpointIgnoresToken` | JWTCummonMethods.java:117-121 | The impersonation URL is the same for every token, whatever issuer it names. |
| `DelegatedToken.ExchangeReply` | JWTCummonMethods.java:86-97 | A reply with a body yields the extracted `access_token` text; the non-empty check only ever keeps that text. A null body (the `NullPointerException` of `toString()`) or a 4xx reply yields `""`. Every other POST exception escapes unchanged. |
| `DelegatedToken.ImpersonationReply` | JWTCummonMethods.java:119-130 | A reply with a body yields the extracted `access_token` text. A 4xx reply yields `""`. A null body raises `IllegalArgumentException` from the JSON reader, and it escapes, as does every other POST exception. |
| `DelegatedToken.RepliesDifferOnlyOnNullBody` | JWTCummonMethods.java:86-130 | Both flows give the same result for every POST outcome except a null body, where exchange gives `""` and impersonation throws. |
| `DelegatedToken.AccessTokenFromReply` | JWTCummonMethods.java:92-93 | In both flows `{"access_token": "t"}` yields `t`. A reply without the field yields `""`. A JSON null value yields the text `"null"`. |
| `DelegatedToken.ExchangeToken` | JWTCummonMethods.java:67-101 | The method posts `ExchangeRequest` (the token's own issuer) and returns `ExchangeReply` of that reply. |
| `DelegatedToken.ExchangeWithoutIssuerEscapes` | JWTCummonMethods.java:77-95 | For an unparsable token or a token without `iss`, exchange posts to a URL without a scheme. When the transport refuses it, as `RestTemplate` does, `IllegalArgumentException` escapes the handler. |
| `DelegatedToken.ImpersonateUser` | JWTCummonMethods.java:106-133 | The method posts `ImpersonationRequest` (the configured realm) and returns `ImpersonationReply` of that reply. |

## Findings

| source | as written | input that shows it | evidently intended | confidence | as-written member | corrected member |
|---|---|---|---|---|---|---|
| JWTCummonMethods.java:175-178 | The printed empty roles list `[]` becomes the empty text, and `split(",")` turns that into one empty piece. Then `"".substring(1, -1)` raises `StringIndexOutOfBoundsException`, which the `ParseException` handler does not catch. | a token whose `realm_access.roles` is the empty array | an empty list of roles | not executed; follows from the semantics of `substring` and `split` | `RolesAndGroups.EmptyRolesListThrows` | `RolesAndGroups.IntendedRolesRoundTrip` (about `RolesAndGroups.RolesFromTextIntended`) |

`ExtractRoles` still models the code as written. The corrected trimming is a
separate function. Nothing else in the model depends on the roles list.

## Left out

- JWT decoding, base64url handling and claim typing inside the token library are not modelled. `parse` is a parameter. `ClaimSet` holds what the library's accessors return.
- Jackson's JSON reader is not modelled. `readTree` is a parameter. A number node carries the text the reader prints for it.
- The HTTP POST, `RestTemplate`, the headers and the content type are not modelled. `send` is a parameter that only gives the outcome: a reply with a body that may be null, or the exception the POST throws. The model leaves the transport free on every URL. `RejectsRelative` states how `RestTemplate` refuses the scheme-less URLs exchange can build, and `ExchangeWithoutIssuerEscapes` assumes it rather than deriving it from a model of URI parsing.
- `new Date()` is the parameter `now`. Instants are integers in one unit, and the model does not cover millisecond rounding.
- The diagnostics printed with `System.out.println` are left out. So are the Spring `@Service` wiring and how the configuration fields get their values. The fields are modelled as possibly-null strings.
- The exact `toString` format of the roles list depends on the library version. The model takes the printed text as input. `RolesRoundTrip` is stated for the form `["r1",…,"rn"]`.
- Lines 92-93 and 125-126 call the extractor twice on the same body. The model calls it once, because the call is deterministic.
- The JSON reader's rejection of a null text follows the Jackson releases that the extractor's catch list compiles against (2.10 and later, where `readTree(String)` declares only `JsonProcessingException`).
- A null `token` argument is not modelled: tokens are non-null strings.
- Null elements inside the `groups` array are not modelled: group names are non-null strings.
- JavaLang.Substring: positions and lengths count Unicode characters, while Java's `length()` and `substring` count UTF-16 code units. Trimming therefore differs when a character outside the Basic Multilingual Plane is dropped or counted: `"[😀]"` gives the roles `[""]` in Java but an index error in the model.
- JavaLang.SubstringFrom: positions count Unicode characters, while Java counts UTF-16 code units. Dropping the first character of a group name that starts outside the Basic Multilingual Plane differs: Java's `"😀x".substring(1)` keeps a lone low surrogate before `x`, and the model gives `"x"`.
