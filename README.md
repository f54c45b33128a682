# Cosmos DB session tokens for ASP.NET Core: a Dafny model

The library keeps Cosmos DB session tokens consistent for one client across HTTP requests. It has five parts:

- A Castle proxy around each `Container` intercepts every call. It injects the token the current request already holds into the call's `RequestOptions`, and it captures the `Session` header from the `Response<>` that comes back.
- A token manager keeps the captured tokens per HTTP request. Each request (the *context*) has its own dictionary.
- A middleware seeds that dictionary from the request's cookies before the rest of the pipeline runs.
- A response-start hook writes the dictionary back as one `csmsdb-…` cookie per entry.
- The newer generation tags every token with where it came from: the incoming request, a read or a write. A merge rule never lets a read-sourced or request-sourced token replace a write-sourced one.

The repository has two generations of near-duplicate code:

- **Newer:** `Interceptors/`, the `Middleware/` folder, and `SessionTokenWithSource.cs`. Tokens are keyed by a `uint` container code.
- **Older:** `ContainerInterceptor.cs`, `CookieCosmosDbHttpMiddleware.cs`, `CosmosDbSessionTokenHttpMiddleware.cs`, and the file that combines the last two, `CosmosDbSessionInterception.cs`. Tokens are keyed by database name.

The model covers both generations. It is organised as follows:

| module | file | models |
|---|---|---|
| `SessionTokens` | `session_token.dfy` | the tagged token and its merge rule (pure) |
| `Decimal` | `decimal.dfy` | `uint` as printed by C# string interpolation, and `uint.TryParse` with its white space and sign |
| `TokenManager` | `token_manager.dfy` | `CosmosDbContextSessionTokenManager` as a class |
| `Invocations` | `invocation.dfy` | the intercepted call and the parameter-scan loop shared by both interceptors |
| `ContainerCallInterceptor` | `container_interceptor.dfy` | the newer interceptor, with its method-classification table and capture step |
| `DatabaseCallInterceptor` | `database_interceptor.dfy` | the older per-database interceptor |
| `CookieChannel` | `cookie_channel.dfy` | the read-incoming and set-outgoing loops, over a codec that each revision supplies |
| `SessionMiddleware` | `session_middleware.dfy` | `InvokeAsync`, common to both base classes |
| `ContainerCookies` | `container_cookies.dfy` | the container-code cookie codec, with tagged tokens and with plain tokens |
| `DatabaseCookies` | `database_cookies.dfy` | the database-name cookie codec of the older generation |

**The token manager.** It is a class: a map from context to a dictionary object, each dictionary holding the map its entries form.

- The snapshot operation returns the stored object itself. A `Set` after a snapshot therefore shows through the dictionary that was handed out.
- The class is generic in the key and the value. The older generation stores `string?` under a database name, because its interceptor writes the `Session` header without a null check. The newer middleware's store is not among the modelled source files. Its manager takes `ConcurrentDictionary<uint, SessionTokenWithSource>` dictionaries, while `CosmosDbContextSessionTokenManager` takes `string`-keyed ones. The model gives the newer store the same seed, snapshot and overwrite behaviour as `CosmosDbContextSessionTokenManager`, with `SessionTokenWithSource` stored under a container code.
- The newer interceptor calls two store methods: `GetSessionTokenForContextFullyQualifiedContainer` and `SetSessionTokenForContextAndFullyQualifiedContainer`. Neither exists on `ICosmosDbContextSessionTokenManager`. So the newer interceptor reads from an abstract `lookup` function, and it returns the store calls it makes.

**The interceptors.** Reflection and `dynamic` dispatch become datatypes:

- a parameter descriptor: options type, has a `SessionToken` property, default-constructible;
- an argument value;
- a return value: null, a `Response<>` with an optional `Session` header, a `Task` holding a value, or anything else.

A `Task` is awaited once and its value goes through the non-`Task` overload. A task inside a task is therefore not a `Response<>`.

**The middleware.** What runs after it (`next`) is given as three things: the store writes it makes before the response starts, the status it sets, and the writes it makes afterwards. The model then proves these properties:

- The hook always finds the dictionary.
- The cookies are those of the dictionary as the writes made before the response start left it. Writes for other contexts do not matter, since the store keeps every context's writes apart.
- Cookies written by one response and sent back by the client are read by the next request as the same dictionary.
  - With the tagged codec, every token returns tagged as coming from the incoming request.
  - With the older codec, this holds when `UrlDecode` inverts `UrlEncode`.

## Model

| member | source | states |
|---|---|---|
| Strings.StartsWith | src/CosmosDB.Extensions.SessionTokens.AspNetCore/Middleware/CosmosDbSessionTokenCookiesMiddleware.cs:26-27 | a text starts with a prefix iff it is at least as long and is the prefix followed by the rest (an ordinal test) |
| SessionTokens.ChooseTokenToKeepBySourcePriority | src/CosmosDB.Extensions.SessionTokens.AspNetCore/SessionTokenWithSource.cs:6-22 | a write-sourced newer token is taken; otherwise a write-sourced existing token is kept; otherwise the newer token is taken |
| SessionTokens.KeptIsAnInputAndWriteIsSticky | src/CosmosDB.Extensions.SessionTokens.AspNetCore/SessionTokenWithSource.cs:6-22 | the kept token is one of the two inputs, and it is write-sourced iff at least one input is |
| SessionTokens.ChooseIsIdempotent | src/CosmosDB.Extensions.SessionTokens.AspNetCore/SessionTokenWithSource.cs:6-22 | merging a token with itself gives it back |
| SessionTokens.KeepAllKeepsLastWrite | src/CosmosDB.Extensions.SessionTokens.AspNetCore/SessionTokenWithSource.cs:6-22 | merging a sequence oldest first gives its last write-sourced token if there is one, otherwise its last token |
| SessionTokens.LastWriteIndex | src/CosmosDB.Extensions.SessionTokens.AspNetCore/SessionTokenWithSource.cs:9-12 | the position of the last write-sourced token, or none exactly when no token is write-sourced |
| Decimal.DigitsValueOfDecimalString | src/CosmosDB.Extensions.SessionTokens.AspNetCore/Middleware/CosmosDbSessionTokenCookiesMiddleware.cs:58-59 | the printed decimal digits of a number have that number as their value |
| Decimal.ParseUInt32 | src/CosmosDB.Extensions.SessionTokens.AspNetCore/Middleware/CosmosDbSessionTokenCookiesMiddleware.cs:61-64 | for a text of plain digits: a code iff the text is non-empty and its value is below 2^32, and then the code is that value |
| Decimal.ParseUInt32Accepts | src/CosmosDB.Extensions.SessionTokens.AspNetCore/Middleware/CosmosDbSessionTokenCookiesMiddleware.cs:61-64 | white space, an optional `+` or `-`, digits and white space parse exactly when the digits' value is below 2^32 and a `-` stands only before a zero value; the code is then that value |
| Decimal.ParseUInt32Sound | src/CosmosDB.Extensions.SessionTokens.AspNetCore/Middleware/CosmosDbSessionTokenCookiesMiddleware.cs:61-64 | every text that parses is white space, at most one `+` or `-`, digits whose value is the code, and white space, with a `-` only before zero |
| Decimal.ParseDecimalString | src/CosmosDB.Extensions.SessionTokens.AspNetCore/Middleware/CosmosDbSessionTokenCookiesMiddleware.cs:58-64 | parsing the printed code gives the code back |
| Decimal.DecimalStringInjective | src/CosmosDB.Extensions.SessionTokens.AspNetCore/Middleware/CosmosDbSessionTokenCookiesMiddleware.cs:58-59 | two codes that print the same are equal |
| Decimal.LeadingZerosAccepted | src/CosmosDB.Extensions.SessionTokens.AspNetCore/Middleware/CosmosDbSessionTokenCookiesMiddleware.cs:61-64 | "007" and "7" both parse as 7; the empty text does not parse |
| Decimal.PlusSignAccepted | src/CosmosDB.Extensions.SessionTokens.AspNetCore/Middleware/CosmosDbSessionTokenCookiesMiddleware.cs:61-64 | "+7" parses as 7 |
| Decimal.MinusSignAccepted | src/CosmosDB.Extensions.SessionTokens.AspNetCore/Middleware/CosmosDbSessionTokenCookiesMiddleware.cs:61-64 | "-0" parses as 0, and "-7" overflows |
| Decimal.WhiteSpaceAccepted | src/CosmosDB.Extensions.SessionTokens.AspNetCore/Middleware/CosmosDbSessionTokenCookiesMiddleware.cs:61-64 | " 7" followed by a tab parses as 7 |
| Decimal.WhiteSpaceAfterSignRejected | src/CosmosDB.Extensions.SessionTokens.AspNetCore/Middleware/CosmosDbSessionTokenCookiesMiddleware.cs:61-64 | "+ 7" does not parse |
| Decimal.UInt32Limits | src/CosmosDB.Extensions.SessionTokens.AspNetCore/Middleware/CosmosDbSessionTokenCookiesMiddleware.cs:61-64 | 4294967295 parses and 4294967296 does not |
| TokenManager.TokenDictionary.AddOrUpdate | src/CosmosDB.Extensions.SessionTokens.AspNetCore/CosmosDbContextSessionTokenManager.cs:27-29 | the key is inserted or overwritten with the value, and no other key changes |
| TokenManager.SessionTokenManager.GetSessionToken | src/CosmosDB.Extensions.SessionTokens.AspNetCore/CosmosDbContextSessionTokenManager.cs:13-23 | none when the context has no dictionary or the dictionary has no entry for the key, otherwise that entry |
| TokenManager.GetSessionTokenIsLookup | src/CosmosDB.Extensions.SessionTokens.AspNetCore/CosmosDbContextSessionTokenManager.cs:13-23 | the getter is a lookup in the store's abstract value |
| TokenManager.SessionTokenManager.SetSessionToken | src/CosmosDB.Extensions.SessionTokens.AspNetCore/CosmosDbContextSessionTokenManager.cs:25-30 | an existing context keeps its dictionary object with the key overwritten; a missing context gets a fresh dictionary holding only that key; the store stays free of shared dictionaries and its value is `SetInView` of the old one |
| TokenManager.LookupAfterSet | src/CosmosDB.Extensions.SessionTokens.AspNetCore/CosmosDbContextSessionTokenManager.cs:25-30 | after a set, the (context, key) entry holds the new token with no merge, and every other entry of every context reads as before |
| TokenManager.SessionTokenManager.SetSessionTokensForContext | src/CosmosDB.Extensions.SessionTokens.AspNetCore/CosmosDbContextSessionTokenManager.cs:32-36 | an already-seeded context is an error and leaves the table as it was; otherwise the context maps to the given dictionary object |
| TokenManager.SessionTokenManager.TryGetSessionTokensForHttpContext | src/CosmosDB.Extensions.SessionTokens.AspNetCore/CosmosDbContextSessionTokenManager.cs:38-42 | true iff the context has a dictionary, and then the stored dictionary object itself |
| TokenManager.SnapshotSeesLaterSets | src/CosmosDB.Extensions.SessionTokens.AspNetCore/CosmosDbContextSessionTokenManager.cs:25-42 | a set made after a snapshot is visible through the snapshot |
| TokenManager.ApplyWritesToStore | src/CosmosDB.Extensions.SessionTokens.AspNetCore/CosmosDbContextSessionTokenManager.cs:25-30 | running a list of sets through the class gives the store the value `ApplyWrites` specifies |
| TokenManager.WritesAreIsolatedPerContext | src/CosmosDB.Extensions.SessionTokens.AspNetCore/CosmosDbContextSessionTokenManager.cs:25-30 | what a seeded context holds after any interleaving of writes depends only on the writes addressed to it |
| TokenManager.ApplyWritesConcatenates | src/CosmosDB.Extensions.SessionTokens.AspNetCore/CosmosDbContextSessionTokenManager.cs:25-30 | two batches of sets applied one after the other equal one batch |
| TokenManager.WritesOnlyAddKeys | src/CosmosDB.Extensions.SessionTokens.AspNetCore/CosmosDbContextSessionTokenManager.cs:25-30 | sets never remove a key from a context's dictionary |
| TokenManager.LastWriteWins | src/CosmosDB.Extensions.SessionTokens.AspNetCore/CosmosDbContextSessionTokenManager.cs:25-30 | the last set to a key decides its value |
| Invocations.FirstEligible | src/CosmosDB.Extensions.SessionTokens.AspNetCore/Interceptors/CosmosDbContainerInterceptor.cs:108-117 | the first parameter whose type is a `RequestOptions` with a `SessionToken` property; none before it is one |
| Invocations.WithSessionToken | src/CosmosDB.Extensions.SessionTokens.AspNetCore/Interceptors/CosmosDbContainerInterceptor.cs:134 | an options object gets the token, replacing whatever it carried; any other value is left as it is |
| Invocations.SetSessionTokenOnRequestOptionsParameter | src/CosmosDB.Extensions.SessionTokens.AspNetCore/Interceptors/CosmosDbContainerInterceptor.cs:100-162 | the scan leaves the arguments as `InjectSessionToken` specifies, or fails with the arguments untouched when no default options can be made; the flag is true iff a token was given and an eligible parameter exists |
| Invocations.InjectTouchesOnlyFirstEligible | src/CosmosDB.Extensions.SessionTokens.AspNetCore/Interceptors/CosmosDbContainerInterceptor.cs:108-157 | only the first eligible argument can change, and the step fails iff that argument is null and cannot be default-constructed |
| Invocations.InjectAtFirstEligible | src/CosmosDB.Extensions.SessionTokens.AspNetCore/Interceptors/CosmosDbContainerInterceptor.cs:119-151 | a null options argument becomes a default one even without a token; the token is written iff one is given; otherwise the argument's own token stays |
| Invocations.InjectSameTokenIsNoOp | src/CosmosDB.Extensions.SessionTokens.AspNetCore/Interceptors/CosmosDbContainerInterceptor.cs:132-134 | injecting the token an argument already carries changes nothing |
| Invocations.InjectIsIdempotent | src/CosmosDB.Extensions.SessionTokens.AspNetCore/Interceptors/CosmosDbContainerInterceptor.cs:100-162 | injecting twice is the same as injecting once |
| ContainerCallInterceptor.ImmutableAdd | src/CosmosDB.Extensions.SessionTokens.AspNetCore/Interceptors/CosmosDbContainerInterceptor.cs:23-46 | `ImmutableDictionary.Add` inserts a new key, accepts a repeated key with the same value unchanged, and throws on a repeated key with a different value |
| ContainerCallInterceptor.RepeatedAddIsHarmless | src/CosmosDB.Extensions.SessionTokens.AspNetCore/Interceptors/CosmosDbContainerInterceptor.cs:39-40 | adding `ReadContainerStreamAsync` again as Read leaves the table unchanged; adding it as Write would throw |
| ContainerCallInterceptor.ReadIffNameStartsWithRead | src/CosmosDB.Extensions.SessionTokens.AspNetCore/Interceptors/CosmosDbContainerInterceptor.cs:23-46 | a table entry is Read iff the method name starts with "Read"; every create, delete, patch, replace and upsert name is Write |
| ContainerCallInterceptor.SourceFor | src/CosmosDB.Extensions.SessionTokens.AspNetCore/Interceptors/CosmosDbContainerInterceptor.cs:244-251 | Read methods give read-sourced tokens, and Write methods give write-sourced ones |
| ContainerCallInterceptor.TrySaveSessionTokenFromReturnValue | src/CosmosDB.Extensions.SessionTokens.AspNetCore/Interceptors/CosmosDbContainerInterceptor.cs:220-279 | at most one store call; one exactly when the value is a `Response<>` with a header, a context exists and the method is known, carrying the tag its classification gives; an unknown method in that case is an error |
| ContainerCallInterceptor.InterceptImmediateReturnValue | src/CosmosDB.Extensions.SessionTokens.AspNetCore/Interceptors/CosmosDbContainerInterceptor.cs:192-208 | a null value makes no store call; every value is handed back unchanged; the store calls are those of the capture step |
| ContainerCallInterceptor.InterceptReturnValue | src/CosmosDB.Extensions.SessionTokens.AspNetCore/Interceptors/CosmosDbContainerInterceptor.cs:174-179 | the value is handed back unchanged, a task as a task with the same value |
| ContainerCallInterceptor.CaptureStoresExactlyOnce | src/CosmosDB.Extensions.SessionTokens.AspNetCore/Interceptors/CosmosDbContainerInterceptor.cs:174-279 | after awaiting a task, exactly one tagged store call iff the value is a `Response<>` with a header, a context exists and the method is known; an error iff the method is unknown in that case; otherwise no call |
| ContainerCallInterceptor.TokenToInject | src/CosmosDB.Extensions.SessionTokens.AspNetCore/Interceptors/CosmosDbContainerInterceptor.cs:124-130 | the store is asked only inside a context; outside one there is no token |
| ContainerCallInterceptor.Intercept | src/CosmosDB.Extensions.SessionTokens.AspNetCore/Interceptors/CosmosDbContainerInterceptor.cs:71-98 | injection, then the call, then the capture: each failure is reported and stops what follows; on success the arguments are the injected ones, the return value is the call's, and the store calls are the capture step's |
| DatabaseCallInterceptor.StoredToken | src/CosmosDB.Extensions.SessionTokens.AspNetCore/ContainerInterceptor.cs:73-78 | a token is found iff the manager has a non-null entry for (context, database), and then it is that entry |
| DatabaseCallInterceptor.StoredTokenIsTokenInView | src/CosmosDB.Extensions.SessionTokens.AspNetCore/ContainerInterceptor.cs:75-77 | the manager lookup agrees with the lookup in the store's abstract value |
| DatabaseCallInterceptor.DispatchImmediate | src/CosmosDB.Extensions.SessionTokens.AspNetCore/ContainerInterceptor.cs:107-124 | the value is handed back unchanged; one write iff it is a `Response<>` inside a context, and that write stores the header as it is, null included, under the database name |
| DatabaseCallInterceptor.DynamicDispatchAsyncVsSync | src/CosmosDB.Extensions.SessionTokens.AspNetCore/ContainerInterceptor.cs:94-105 | the value is handed back unchanged, a task as a task with the same value, with at most one manager write |
| DatabaseCallInterceptor.DispatchWritesHeaderUnchecked | src/CosmosDB.Extensions.SessionTokens.AspNetCore/ContainerInterceptor.cs:107-124 | one write iff the awaited value is a `Response<>` inside a context, storing the header as it is (null included) under the database name |
| DatabaseCallInterceptor.NullHeaderHidesKnownToken | src/CosmosDB.Extensions.SessionTokens.AspNetCore/ContainerInterceptor.cs:111-115 | a `Response<>` without a header erases the context's token for that database |
| DatabaseCallInterceptor.DispatchTouchesOnlyItsDatabase | src/CosmosDB.Extensions.SessionTokens.AspNetCore/ContainerInterceptor.cs:111-115 | a dispatch never changes the entry of another database |
| DatabaseCallInterceptor.TokenToInject | src/CosmosDB.Extensions.SessionTokens.AspNetCore/ContainerInterceptor.cs:73-82 | the manager is asked only inside a context; a missing entry and a null entry both mean no token |
| DatabaseCallInterceptor.Intercept | src/CosmosDB.Extensions.SessionTokens.AspNetCore/ContainerInterceptor.cs:30-50 | injection with the manager's token, then the call, then dispatch: each failure leaves the manager unchanged; on success the return value is the call's and the manager holds the dispatch's writes |
| CookieChannel.KeyOfCookie | src/CosmosDB.Extensions.SessionTokens.AspNetCore/Middleware/CosmosDbSessionTokenCookiesMiddleware.cs:26-31 | a cookie without the prefix contributes nothing; a prefixed one contributes what its remainder decodes to |
| CookieChannel.ReadIncoming | src/CosmosDB.Extensions.SessionTokens.AspNetCore/Middleware/CosmosDbSessionTokenCookiesMiddleware.cs:21-42 | the loop builds the dictionary `IncomingTokens` specifies |
| CookieChannel.IncomingKeys | src/CosmosDB.Extensions.SessionTokens.AspNetCore/Middleware/CosmosDbSessionTokenCookiesMiddleware.cs:26-31 | a key is read iff some request cookie decodes to it |
| CookieChannel.IncomingLaterDuplicateWins | src/CosmosDB.Extensions.SessionTokens.AspNetCore/Middleware/CosmosDbSessionTokenCookiesMiddleware.cs:32-37 | of several cookies for one key, the last one's value is kept |
| CookieChannel.TwoCookiesForOneKey | src/CosmosDB.Extensions.SessionTokens.AspNetCore/Middleware/CosmosDbSessionTokenCookiesMiddleware.cs:32-37 | two request cookies for the same key leave only the second one's value |
| CookieChannel.IgnoredCookieAddsNothing | src/CosmosDB.Extensions.SessionTokens.AspNetCore/Middleware/CosmosDbSessionTokenCookiesMiddleware.cs:26-31 | an unprefixed or undecodable cookie leaves the dictionary as it was |
| CookieChannel.CookiesFor | src/CosmosDB.Extensions.SessionTokens.AspNetCore/Middleware/CosmosDbSessionTokenCookiesMiddleware.cs:52-55 | one cookie per key, with the key's name and the outgoing form of its token |
| CookieChannel.HttpResponse.Append | src/CosmosDB.Extensions.SessionTokens.AspNetCore/Middleware/CosmosDbSessionTokenCookiesMiddleware.cs:54 | one cookie is added after those already there, and the status is unchanged |
| CookieChannel.SetOutgoing | src/CosmosDB.Extensions.SessionTokens.AspNetCore/Middleware/CosmosDbSessionTokenCookiesMiddleware.cs:44-56 | no cookie when the status excludes them; otherwise exactly one cookie per dictionary entry, each key once, in the enumeration order taken |
| CookieChannel.ReturnedCookiesDecode | src/CosmosDB.Extensions.SessionTokens.AspNetCore/Middleware/CosmosDbSessionTokenCookiesMiddleware.cs:52-64 | each written cookie, sent back, decodes to the key it was written for |
| CookieChannel.ReturnedKeysAreRead | src/CosmosDB.Extensions.SessionTokens.AspNetCore/Middleware/CosmosDbSessionTokenCookiesMiddleware.cs:21-56 | every written key is read back with its own value |
| CookieChannel.ReturnedKeysAreWritten | src/CosmosDB.Extensions.SessionTokens.AspNetCore/Middleware/CosmosDbSessionTokenCookiesMiddleware.cs:21-56 | only written keys are read back |
| CookieChannel.CookieRoundTrip | src/CosmosDB.Extensions.SessionTokens.AspNetCore/Middleware/CosmosDbSessionTokenCookiesMiddleware.cs:21-64 | the cookies written for a dictionary, sent back, are read as the same keys, whatever the write order, when every key's name round-trips |
| ContainerCookies.CookieNameForContainerCode | src/CosmosDB.Extensions.SessionTokens.AspNetCore/Middleware/CosmosDbSessionTokenCookiesMiddleware.cs:58-59 | the name carries the prefix, followed by the code in decimal |
| ContainerCookies.ContainerCodeFromCookieName | src/CosmosDB.Extensions.SessionTokens.AspNetCore/Middleware/CosmosDbSessionTokenCookiesMiddleware.cs:61-64 | for a remainder of plain digits after the prefix: a code iff the remainder is non-empty and its value is below 2^32, and then that value |
| ContainerCookies.ContainerCodeFromPaddedName | src/CosmosDB.Extensions.SessionTokens.AspNetCore/Middleware/CosmosDbSessionTokenCookiesMiddleware.cs:61-64 | a remainder of white space, an optional sign, digits and white space names the digits' value exactly when it is below 2^32 and a `-` stands only before zero |
| ContainerCookies.ShouldIncludeCookiesForResponseStatusCode | src/CosmosDB.Extensions.SessionTokens.AspNetCore/Middleware/CosmosDbSessionTokenCookiesMiddleware.cs:66-76 | every status carries cookies except 401 and 403 |
| ContainerCookies.SourcedCodec | src/CosmosDB.Extensions.SessionTokens.AspNetCore/Middleware/CosmosDbSessionTokenCookiesMiddleware.cs:21-64 | the prefix is `csmsdb-`; every code's name decodes back to the code; a request cookie becomes a token tagged as from the incoming request, written back as the same string; only 401 and 403 carry no cookies |
| ContainerCookies.PlainCodec | src/CosmosDB.Extensions.SessionTokens.AspNetCore/Middleware/CosmosDbSessionTokenCookiesHttpMiddleware.cs:21-71 | the same names and status gate, with cookie values stored and written as they are |
| ContainerCookies.AllContainerCodeNamesRoundTrip | src/CosmosDB.Extensions.SessionTokens.AspNetCore/Middleware/CosmosDbSessionTokenCookiesMiddleware.cs:58-64 | every code's cookie name decodes to that code |
| ContainerCookies.PrefixedNameKey | src/CosmosDB.Extensions.SessionTokens.AspNetCore/Middleware/CosmosDbSessionTokenCookiesMiddleware.cs:26-31 | a prefixed request cookie reads as `uint.TryParse` of what follows the prefix |
| ContainerCookies.PlusSignedNameIsRead | src/CosmosDB.Extensions.SessionTokens.AspNetCore/Middleware/CosmosDbSessionTokenCookiesMiddleware.cs:26-31 | the cookie "csmsdb-+7" is read as code 7 |
| ContainerCookies.KeyOfCookieIsContainerCode | src/CosmosDB.Extensions.SessionTokens.AspNetCore/Middleware/CosmosDbSessionTokenCookiesMiddleware.cs:26-31 | both newer codecs read a prefixed cookie as the code its name gives, and ignore the others |
| ContainerCookies.ContainerCodeNameRoundTrip | src/CosmosDB.Extensions.SessionTokens.AspNetCore/Middleware/CosmosDbSessionTokenCookiesMiddleware.cs:58-64 | decoding a code's cookie name gives the code back |
| ContainerCookies.EveryCodeRoundTrips | src/CosmosDB.Extensions.SessionTokens.AspNetCore/Middleware/CosmosDbSessionTokenCookiesHttpMiddleware.cs:53-59 | every code's name round-trips through both newer codecs |
| ContainerCookies.CookieNamesAreDistinct | src/CosmosDB.Extensions.SessionTokens.AspNetCore/Middleware/CosmosDbSessionTokenCookiesMiddleware.cs:58-59 | different codes get different cookie names |
| ContainerCookies.IncomingTokensAreFromRequest | src/CosmosDB.Extensions.SessionTokens.AspNetCore/Middleware/CosmosDbSessionTokenCookiesMiddleware.cs:32-37 | every token read from cookies is tagged as coming from the incoming request |
| ContainerCookies.SourcedCrossRequestRoundTrip | src/CosmosDB.Extensions.SessionTokens.AspNetCore/Middleware/CosmosDbSessionTokenCookiesMiddleware.cs:21-56 | a dictionary written as cookies and sent back is read as the same codes and token strings, each now tagged as from the incoming request |
| ContainerCookies.PlainCrossRequestRoundTrip | src/CosmosDB.Extensions.SessionTokens.AspNetCore/Middleware/CosmosDbSessionTokenCookiesHttpMiddleware.cs:21-51 | with plain tokens, a dictionary written as cookies and sent back is read as the same dictionary |
| ContainerCookies.CookieNameExample | src/CosmosDB.Extensions.SessionTokens.AspNetCore/Middleware/CosmosDbSessionTokenCookiesMiddleware.cs:58-59 | code 716638 gets the cookie "csmsdb-716638" |
| ContainerCookies.UnauthorizedResponsesCarryNoCookies | src/CosmosDB.Extensions.SessionTokens.AspNetCore/Middleware/CosmosDbSessionTokenCookiesMiddleware.cs:66-76 | in both newer codecs a status carries cookies iff it is neither 401 nor 403 |
| ContainerCookies.LeadingZeroNamesShareCode | src/CosmosDB.Extensions.SessionTokens.AspNetCore/Middleware/CosmosDbSessionTokenCookiesMiddleware.cs:29-31 | "csmsdb-007" and "csmsdb-7" both name code 7 |
| ContainerCookies.LeadingZeroNamesCollide | src/CosmosDB.Extensions.SessionTokens.AspNetCore/Middleware/CosmosDbSessionTokenCookiesMiddleware.cs:29-37 | of the cookies "csmsdb-007" and "csmsdb-7", the later one's value is kept for code 7 |
| DatabaseCookies.Codec | src/CosmosDB.Extensions.SessionTokens.AspNetCore/CookieCosmosDbHttpMiddleware.cs:18-45 | the prefix is `csmsdb-`; a remainder decodes to the URL-decoded database name; a name is the prefix and the URL-encoded database; a cookie value read and written back is the same non-null string; every status carries cookies |
| DatabaseCookies.CookieNameForDatabase | src/CosmosDB.Extensions.SessionTokens.AspNetCore/CookieCosmosDbHttpMiddleware.cs:41-42 | the name carries the prefix, followed by the URL-encoded database name |
| DatabaseCookies.DatabaseFromCookieName | src/CosmosDB.Extensions.SessionTokens.AspNetCore/CookieCosmosDbHttpMiddleware.cs:44-45 | when decoding inverts encoding, a database's cookie name decodes to that database |
| DatabaseCookies.EveryPrefixedCookieIsRead | src/CosmosDB.Extensions.SessionTokens.AspNetCore/CookieCosmosDbHttpMiddleware.cs:23-27 | every prefixed cookie is read, under its decoded remainder; no prefixed name is dropped |
| DatabaseCookies.DatabaseNameRoundTrips | src/CosmosDB.Extensions.SessionTokens.AspNetCore/CookieCosmosDbHttpMiddleware.cs:41-45 | when decoding inverts encoding, every database name round-trips through its cookie name |
| DatabaseCookies.EveryStatusCarriesCookies | src/CosmosDB.Extensions.SessionTokens.AspNetCore/CookieCosmosDbHttpMiddleware.cs:32-39 | no status suppresses the older generation's cookies |
| DatabaseCookies.DatabaseCrossRequestRoundTrip | src/CosmosDB.Extensions.SessionTokens.AspNetCore/CookieCosmosDbHttpMiddleware.cs:18-45 | a dictionary of non-null tokens written as cookies and sent back is read as the same dictionary |
| SessionMiddleware.OnStarting | src/CosmosDB.Extensions.SessionTokens.AspNetCore/Middleware/CosmosDbSessionTokenHttpMiddleware.cs:26-35 | cookies are written only when the context has a dictionary, from its entries at that moment |
| SessionMiddleware.RunSeeded | src/CosmosDB.Extensions.SessionTokens.AspNetCore/Middleware/CosmosDbSessionTokenHttpMiddleware.cs:26-37 | `next` runs once, around the hook; the hook finds the dictionary and writes the context's entries as the writes made before the response start left them; the store ends with all of `next`'s writes |
| SessionMiddleware.InvokeAsync | src/CosmosDB.Extensions.SessionTokens.AspNetCore/Middleware/CosmosDbSessionTokenHttpMiddleware.cs:21-38 | a seeded context makes the seed throw, and nothing else happens; otherwise the store is seeded with the request cookies' tokens before `next`, `next` runs once, and the response cookies are the seeded tokens updated by the context's writes made before the response start |

The older base class is modelled by the same `SessionMiddleware` members:

- `src/CosmosDB.Extensions.SessionTokens.AspNetCore/CosmosDbSessionTokenHttpMiddleware.cs:21-38` is the same `InvokeAsync` as the newer one.
- `src/CosmosDB.Extensions.SessionTokens.AspNetCore/CosmosDbSessionInterception.cs:23-86` holds that base class and the database-name cookie middleware in one file. The code matches the two separate files line for line.
- The older parameter scan (`src/CosmosDB.Extensions.SessionTokens.AspNetCore/ContainerInterceptor.cs:52-92`) has the same first-match rule as the newer one. It is modelled by `Invocations.SetSessionTokenOnRequestOptionsParameter`.

## Left out

- Logging, scopes and invocation ids are not modelled. They have no effect on results.
- Concurrency is not modelled: `ConcurrentDictionary` thread safety, the `ConditionalWeakTable` lifetime and parallel requests. The store is used sequentially, and an entry never expires.
- Castle DynamicProxy, reflection and `dynamic` overload selection are not modelled. They are replaced by explicit parameter descriptors and a return-value datatype. `Activator.CreateInstance` returning null is kept as an error.
- An exception thrown by the target call is modelled as an error result. Exceptions thrown by `next` in the middleware are not modelled.
- `CosmosDbClientInterceptor.cs` and `CosmosClientInterceptor.cs` are not modelled. They only wrap containers in proxies.
- Invocations.SetSessionTokenOnRequestOptionsParameter: options objects are values (`Value`), so the model does not capture that `SetValue` changes the caller's own `RequestOptions` object. A caller that passes the same options object to a later call keeps the injected token on it. When the store has no token for that later call, the old token is sent, even for a container or database other than the one it came from. In the model, this is the branch of `InjectAtFirstEligible` where the argument's own token stays.
- Dependency-injection registration and the demo and test programs are not modelled.
- The hashing of (endpoint, database, container) to a container code is outside the modelled code, so container codes are given values.
- ContainerCallInterceptor.Intercept: lookups and writes go to an abstract store through `lookup` and the returned calls. The store methods it names do not exist on `ICosmosDbContextSessionTokenManager`.
- ContainerCallInterceptor.Intercept: the current context is one value for the whole call. The source calls the context delegate once during injection and again during capture.
- ContainerCallInterceptor.InterceptReturnValue: an unknown method name inside an awaited task is reported by `Intercept`. In the source, it surfaces when the caller awaits the returned task.
- DatabaseCallInterceptor.Intercept: `CurrentContext` is one value for the whole call. The source reads the property several times.
- ContainerCallInterceptor.CosmosDbMethodNameToClassification: the table is a map display in source order. The `.Add` chain is proved only for the repeated `ReadContainerStreamAsync` entry, through `ImmutableAdd` and `RepeatedAddIsHarmless`; building the whole chain step by step is beyond the solver's resource limit. The table has no query-method names. Query calls still get the token injected, but their `FeedIterator` results are never captured. The `…StreamAsync` entries return a `ResponseMessage`, which is not a `Response<T>`, so the capture step's `dynamic` dispatch picks the `object` overload and stores nothing for them either (the `Other` return value).
- Decimal.ParseUInt32: `uint.TryParse` is modelled with the invariant culture's signs `+` and `-`. A current culture with other sign strings is not modelled. The trailing NUL characters that .NET also skips after the number are not modelled either, so "7" followed by U+0000 parses in the source and not in the model.
- ContainerCookies.ContainerCodeFromCookieName: it parses through `Decimal.ParseUInt32`, and so has the same two gaps.
- Strings.StartsWith: an ordinal prefix test. The source's `string.StartsWith(string)` compares with the current culture, which ignores code points such as the soft hyphen U+00AD. For the cookie name "csms" U+00AD "db-0" the source's test succeeds, and removing the first seven characters leaves "-0", which parses as code 0. The model reads no key from that cookie.
- `WebUtility.UrlEncode` and `UrlDecode` are parameters (`UrlCodec`). Their round trip is assumed only where a lemma requires `DecodeInvertsEncode`.
- ASP.NET cookie parsing, value escaping and `Set-Cookie` formatting are not modelled. Cookies are (name, value) pairs. How ASP.NET sends back a null cookie value, which the older generation can write, is not modelled: `DatabaseCrossRequestRoundTrip` requires non-null tokens.
- SessionMiddleware.InvokeAsync: for the newer revisions (the `CosmosDB.Extensions.SessionTokens.AspNetCore.Middleware` classes), the store behind `ICosmosDbContextSessionTokenManager<HttpContext>` with `uint`-keyed `SessionTokenWithSource` dictionaries is not among the modelled source files. `InvokeAsync`, `RunSeeded` and `OnStarting` give it `CosmosDbContextSessionTokenManager`'s behaviour: the seed fails on a context that is already seeded, the snapshot is the stored dictionary object, and `next`'s writes overwrite the key (`ContextAfterWrites`). They do not merge through `ChooseTokenToKeepBySourcePriority`.
- SessionMiddleware.InvokeAsync: `next` is described by its store writes before and after the response starts and by its status. The hook runs once, at the response start, as `OnStarting` guarantees for a response that starts. A response that never starts is not modelled. Writes for other contexts may appear in either list.
- The dictionary returned by the read step is freshly created, as in the source. A caller that keeps a reference to it through other means is not modelled.
