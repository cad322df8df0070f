# S3 authenticating reverse proxy: AWS Signature V4 signer and request gate

This project models the core of an S3 reverse proxy. The proxy checks that a
client's request carries a valid AWS Signature Version 4 `Authorization`
header for the proxy's own credentials. It then restricts the request to an
allowlist of buckets, re-signs it for the upstream's credentials and relays
the upstream's response back to the client.

The model has two parts.

- **The signer (`signer.js`).** It parses the `Authorization` header with the
  expression `(.+) Credential=(.+),\s*SignedHeaders=(.+),\s*Signature=(.+)`.
  It builds the canonical request, the credential scope and the string to
  sign. It derives the signing key through the HMAC chain date → region →
  service → request identifier. The derived keys live in a module-wide cache
  meant to hold at most 50 entries with first-in-first-out eviction. As
  written, the eviction throws and the cache grows past 50 (see
  "## Findings"). Finally it rewrites
  the header for another access key (`changeAuthorization`).
- **The request handler (`s3-auth-proxy.js`).** It compares the given and
  the recomputed header with all whitespace removed. It extracts the bucket
  from the url and gates it against the allowlist, letting through any bucket
  named `probe-bucket-sign-…`. It answers 403 or 500, or forwards the request.
  It also counts the bytes it relays.

Modules:

- `Wrappers` (wrappers.dfy): `Option`, `Result`, and `Outcome`, the result of
  a call that may throw but returns nothing.
- `JsText` (js_text.dfy): the JavaScript string operations the source relies
  on:
  - `split` on a character class, and `Array.prototype.join`;
  - `startsWith` and `indexOf`;
  - `replace(/\s/g, "")`, with the full ECMAScript `\s` set;
  - the `\s*` of a regular expression.

  Split/join round trips and whitespace-removal laws are proved here.
- `Primitives` (primitives.dfy): bytes, and the library functions the signer
  calls. These are HMAC-SHA256, SHA-256 as hex, hex and base64 encoding, and
  the SDK's query-string parser and serialiser. They are fields of a `Library`
  value: uninterpreted functions passed in, not defined here.
- `SigningKeyCache` (key_cache.dfy): the cache as a value (`CacheState`) with
  its invariant, and the `KeyCache` class that `Signer` objects share and
  update in place.
- `SigV4` (signer.dfy): the header parser and formatter, and the `Signer`
  class. The class has `reads`/`modifies` frames for its mutable fields
  (`headers`, `credentialParts`) and for the shared cache. The factory
  `NewSigner` stands for the constructor, which can throw.
- `AuthProxy` (auth_proxy.dfy): the request decision and the relay loop.

JavaScript details that are modelled explicitly:

- `String(undefined)` is `"undefined"`. An absent signed header therefore
  signs as `name:undefined`, and a request with no `authorization` header is
  parsed as the text `undefined`, which does not match.
- `join` renders `undefined` as the empty string. A credential with fewer than
  four parts builds its cache key with empty region or service text. A
  four-part credential builds a full cache key, and on a miss the HMAC chain
  throws on the undefined request identifier.
- Calling HMAC with an undefined part throws.
- `x-amz-content-sha256` is used only when it is truthy, that is non-empty.
- `substr(0, 8)` on a datetime shorter than 8 characters keeps all of it.

A missing or malformed header, or an algorithm other than `AWS4-HMAC-SHA256`,
makes the `Signer` constructor throw. The handler catches it and answers 500
(not 403). So does an exception while re-signing, such as a request without
`x-amz-date`. `AuthProxy.HandleRequest` states both.

The key cache is transparent only under a condition. Its key
(signer.js:59-60) is the access-key digest, date, region and service joined
by `_`. It leaves out the request identifier, and `_` may occur inside the
parts. A cached key therefore equals a fresh derivation when two things hold:
every cache key is used with one request identifier (always `aws4_request`
in practice), and no date, region or service contains `_`.
`SigningKeyCache.LookupsTransparent` proves transparency for a cache that
agrees with one derivation function. `SigV4.SharedCacheEntry` and
`SigV4.CacheKeyUnderscoreCollision` show the two ways to break it.

## Model

| member | source | states |
|---|---|---|
| SigV4.FindField | signer.js:15 | Finds the first position of a `,\s*Name=` field marker after a given point; returns none exactly when there is no such marker |
| SigV4.ParseFields | signer.js:15 | The four groups of the header expression, each running to the first following marker and each non-empty, or none. `ParsedHeaderOpens` proves that an accepted header opens with the algorithm, ` Credential=` and the credential; `ParseFormatRoundTrip` and `FormatParsedModuloWhitespace` relate it to the formatter |
| SigV4.ParsedHeaderOpens | signer.js:15 | A header the expression accepts starts with its algorithm, then ` Credential=`, then its credential |
| SigV4.ParseAuthorization | signer.js:13-29 | Accepts a header exactly when the expression matches it and the algorithm is `AWS4-HMAC-SHA256`, and then yields the parsed fields. A missing `authorization` header is malformed |
| SigV4.FormatAuthorization | signer.js:40-46 | The three parts joined by `, `. `FormatLayout` gives the literal layout, and `ParseFormatRoundTrip` proves that the parser recovers the fields |
| SigV4.ParseFormatRoundTrip | signer.js:15-21 | Parsing a header that `authorization()` formatted gives back its algorithm, credential, signed headers and signature. This holds when every field is non-empty and each marker occurs once, that is when no field holds a space, no field after the algorithm holds a comma and no field holds a line terminator |
| SigV4.FormatParsedModuloWhitespace | signer.js:15 | Any header the expression accepts equals, with whitespace removed, the header re-formatted from its four fields |
| SigV4.ReparseFormatted | signer.js:15-29 | The header `changeAuthorization` writes passes the constructor's parse and algorithm check again, with the same fields, and its credential splits at `/` into the same parts. This holds when there is at least one credential part, part 0 (the access key) is non-empty, no credential part holds a `/`, the signed-header list and the signature are non-empty, and none of them holds a space, a comma or a line terminator |
| SigV4.NewSigner | signer.js:13-30 | A header the expression rejects gives `MalformedAuthorization`; an algorithm other than `AWS4-HMAC-SHA256` gives `UnsupportedAlgorithm`; otherwise it returns a valid signer whose fields are the parsed groups, with the credential split at `/`, the signed headers split at `;`, and region, service and request identifier at parts 2, 3 and 4 |
| SigV4.Signer.constructor | signer.js:14-25 | The signer's fields are the parsed groups and their splits, and the signer invariant holds |
| SigV4.DatePart | signer.js:54 | The date is the prefix of the datetime of length min(8, its length) |
| SigV4.Signer.CredentialString | signer.js:48-51 | Overwrites credential part 0 with the access key and nothing else (the scope parts are unchanged); returns `Credential=` followed by the parts joined by `/` |
| SigV4.Signer.Signature | signer.js:53-56 | The key comes from the cache lookup for the first 8 characters of the datetime; the result is the hex HMAC of the string to sign under that key; a failing derivation is passed on |
| SigV4.Signer.Authorization | signer.js:40-46 | Returns the formatted header with the rewritten credential, the same signed headers and the signature over the string to sign; that string is the same before and after the credential rewrite |
| SigV4.Signer.ChangeAuthorization | signer.js:32-38 | Replaces `headers.authorization` and no other header with the header signed under the request's own `x-amz-date`; without `x-amz-date` it fails and leaves headers and cache alone, but the access-key part is already overwritten |
| SigV4.Signer.GetSigningKey | signer.js:58-82 | Returns the cached key on a hit and leaves the cache unchanged; on a miss it derives the key, stores exactly what it returns and keeps the cache invariant; a derivation that throws stores nothing |
| SigV4.Signer.CacheKey | signer.js:59-60 | The access-key digest, date, region and service joined by `_`, without the request identifier. `SharedCacheEntry` and `CacheKeyUnderscoreCollision` state what follows from that |
| SigV4.Signer.DeriveKey | signer.js:64-71 | The HMAC chain succeeds exactly when region, service and request identifier are all defined; otherwise the HMAC call throws |
| SigningKeyCache.Lookup | signer.js:61-81 | A hit returns the stored key and a miss returns the derivation. `LookupTransparent` and `LookupsTransparent` prove that on a cache agreeing with the derivation both give the derivation |
| SigningKeyCache.AfterLookup | signer.js:61-81 | The cache after a lookup: unchanged on a hit or a failed derivation, the corrected insertion on a successful miss. `LookupStores` and `LookupsCoherent` prove that it keeps the invariant and stores the returned key |
| SigningKeyCache.Inserted | signer.js:73-78 | An insertion never adds a key other than the new one |
| SigningKeyCache.InsertedWellFormed | signer.js:73-78 | An insertion keeps the invariant (at most 50 entries, and the queue lists exactly the cached keys, each once), stores the new key, keeps every other value and evicts exactly the oldest-inserted key when the cache was full |
| SigningKeyCache.LookupTransparent | signer.js:61-81 | On a cache whose every entry is its key's derivation, a lookup (hit or miss) returns exactly the derivation, and the cache stays well formed and in agreement with the derivation |
| SigningKeyCache.LookupStores | signer.js:61-81 | A lookup keeps the invariant, and afterwards the cache holds the key the lookup returned under its cache key |
| SigningKeyCache.LookupsCoherent | signer.js:58-82 | Any run of lookups keeps a well-formed cache that agrees with the derivation |
| SigningKeyCache.LookupsTransparent | signer.js:58-82 | In any run of lookups from a cache that agrees with the derivation, every lookup returns its derivation |
| SigV4.MissThenHit | signer.js:58-82 | A miss and then a hit on the same cache key both return the signer's own derived key |
| SigV4.SharedCacheEntry | signer.js:59-60 | Two signers differing only in request identifier share a cache key, so the second is served the key the first derived; the two derivations agree when the request identifiers do |
| SigV4.CacheKeyUnderscoreCollision | signer.js:60 | Region `b_c` on date `a` and region `c` on date `a_b` build the same `_`-joined cache key |
| SigningKeyCache.InsertAllWellFormed | signer.js:73-78 | Any run of fresh insertions keeps the cache invariant |
| SigningKeyCache.InsertAllKeepsNewest | signer.js:73-78 | After any run of fresh insertions the queue is the last 50 keys ever inserted, in insertion order. `FreshLookupsInsert` makes this the order of the cache that `getSigningKey` maintains over lookups of distinct uncached keys |
| SigningKeyCache.FreshLookupsInsert | signer.js:58-82 | Lookups of distinct, uncached keys whose derivation succeeds leave exactly the cache a run of fresh insertions builds |
| SigningKeyCache.HitDoesNotRefresh | signer.js:61-62 | Eviction is first in, first out, not least recently used: on a full cache a hit on the oldest key changes nothing, and the next successful miss still evicts that key |
| SigningKeyCache.FiftyFirstInsertEvictsFirst | signer.js:8-10 | From an empty cache, after 51 distinct keys the first is evicted (derived again on next use) and the other 50 are still cached |
| SigningKeyCache.CacheSizeBounded | signer.js:8-10 | The number of cached keys equals the queue length, at most 50 |
| SigningKeyCache.KeyCache.constructor | signer.js:8-9 | The cache starts empty and well formed |
| SigningKeyCache.KeyCache.Store | signer.js:73-78 | Updates the shared cache in place to exactly the intended insertion, keeping the invariant |
| SigningKeyCache.InsertedAsWritten | signer.js:73-77 | The insertion as written: it stores and queues the key, then throws on overflow before evicting. `AsWrittenOverflowsAndThrows` proves that the 51st key throws and leaves 51 entries |
| SigningKeyCache.AsWrittenOverflowsAndThrows | signer.js:75-78 | As written, a miss on a full cache throws and leaves 51 entries behind, breaking the bound; the corrected insertion keeps it |
| SigV4.StringToSignLayout | signer.js:84-91 | The string to sign has four lines: the algorithm, the datetime, the scope and the SHA-256 of the canonical request |
| SigV4.Signer.StringToSign | signer.js:84-91 | The algorithm, datetime, scope and canonical-request hash joined by newlines. `StringToSignLayout` proves that it splits back into those four lines |
| SigV4.Signer.Scope | signer.js:93-95 | The credential parts after the access key, joined by `/`. `ScopeFields` proves that it splits back into those parts whatever the datetime |
| SigV4.ScopeFields | signer.js:93-95 | The scope splits back into the credential parts after the access key, that is date, region, service and request identifier, whatever datetime is passed |
| SigV4.CanonicalStringLayout | signer.js:97-116 | The canonical request, split into lines, is: the method, the path, the canonical query, one `name:value` line per signed header in order, an empty line, the signed-header list and the payload hash |
| SigV4.Signer.CanonicalString | signer.js:97-108 | The method, path, query, header block, signed headers and payload hash joined by newlines. `CanonicalStringLayout` proves its line structure |
| SigV4.Signer.CanonicalHeaders | signer.js:110-116 | One `name:value` line per signed header, joined by newlines. `HeaderLines` proves the lines, in order and with `undefined` for an absent header |
| SigV4.HeaderLines | signer.js:110-116 | One line per signed header, in order, each `name:` followed by the header's value, or `undefined` when the header is absent |
| SigV4.DeclaredPayloadHashIgnoresBody | signer.js:118-124 | With a non-empty `x-amz-content-sha256` that value is the payload hash, and two requests differing only in their bodies have the same canonical request |
| SigV4.Signer.HexEncodedBodyHash | signer.js:118-124 | A non-empty `x-amz-content-sha256` verbatim, otherwise the SHA-256 of the body or of "". `DeclaredPayloadHashIgnoresBody` proves that a declared hash makes the body irrelevant |
| SigV4.UrlParts | signer.js:130-141 | For `path?query[?more]` the canonical path is `path` and the canonical query is the SDK form of `query`, or empty when `query` is empty |
| SigV4.UrlWithoutQuery | signer.js:130-141 | A url without `?` is its own path and has an empty canonical query |
| SigV4.Signer.Pathname | signer.js:130-132 | A prefix of the url without `?`, followed in the url by `?` or by nothing: the url up to its first `?` |
| SigV4.Signer.RequestSearch | signer.js:134-141 | The SDK-normalised text between the first and second `?`, or "" when it is empty or missing. `UrlParts` and `UrlWithoutQuery` prove both cases |
| AuthProxy.AllowedBuckets | s3-auth-proxy.js:15 | The allowlist has at least one entry and no entry contains a comma |
| AuthProxy.AllowedBucketsListed | s3-auth-proxy.js:15 | A setting written as comma-joined names yields exactly those names |
| AuthProxy.AuthorizationMatches | s3-auth-proxy.js:46-49 | The headers agree once all whitespace is removed. `WhitespaceIgnored` and `MatchIsEqualityWithoutWhitespace` prove what that admits |
| AuthProxy.BucketOf | s3-auth-proxy.js:56 | The second piece of the url split on `/` and `?`, or undefined. `BucketOfPath`, `EmptyFirstSegmentSkipsGate` and `NoSeparatorSkipsGate` prove its cases |
| AuthProxy.BucketPermitted | s3-auth-proxy.js:57-61 | Passes an undefined or empty bucket, an allowlisted one, or one starting with `probe-bucket-sign-`. `DeniedBucketForbidden` and `PermittedBucketForwarded` prove both outcomes |
| AuthProxy.HandleRequest | s3-auth-proxy.js:36-127 | Rejects only with 403 or 500. An exception while reading or recomputing the header gives 500. A mismatching header gives 403, whatever the url, allowlist or re-signing, and so does a matching header for a bucket the gate refuses. An exception while re-signing an authorised request gives 500. Otherwise (matching header, bucket passed, re-signing succeeded) the request is forwarded with the client's method and the re-signed headers, for any url; nothing else is forwarded |
| AuthProxy.ForwardedExactlyWhenAuthorised | s3-auth-proxy.js:46-82 | For `/bucket…` urls and successful re-signing, the request is forwarded exactly when the headers agree once whitespace is removed and the bucket is empty, allowlisted or probe-prefixed |
| AuthProxy.WhitespaceIgnored | s3-auth-proxy.js:46-54 | Inserting whitespace anywhere in the client's header never changes the answer |
| AuthProxy.MatchIsEqualityWithoutWhitespace | s3-auth-proxy.js:46-49 | For headers without whitespace the comparison is exact equality |
| AuthProxy.ReformattedHeaderMatches | s3-auth-proxy.js:46-49 | A parsable client header matches the header re-formatted from its own fields, however it was spaced |
| AuthProxy.TamperedSignatureForbidden | s3-auth-proxy.js:46-54 | A header whose signature was altered beyond whitespace gets 403, whatever the url and allowlist |
| AuthProxy.BucketOfPath | s3-auth-proxy.js:56 | For `/bucket`, `/bucket/…` or `/bucket?…` the bucket is the first path segment |
| AuthProxy.DeniedBucketForbidden | s3-auth-proxy.js:56-66 | A request whose header matches (up to whitespace) and whose bucket is non-empty, not allowlisted and not probe-prefixed gets 403 |
| AuthProxy.PermittedBucketForwarded | s3-auth-proxy.js:56-82 | An authorised request for an allowlisted or probe-prefixed bucket is forwarded with the client's method and the re-signed headers |
| AuthProxy.EmptyFirstSegmentSkipsGate | s3-auth-proxy.js:56-61 | `/`, `/?…` and any url starting `//` have an empty bucket and pass the gate whatever the allowlist |
| AuthProxy.NoSeparatorSkipsGate | s3-auth-proxy.js:56-61 | A url with neither `/` nor `?` has no bucket and passes the gate |
| AuthProxy.RelayResponse | s3-auth-proxy.js:103-107 | Writes the chunks to the client in arrival order; the counted size is the sum of the chunk lengths, which is the number of bytes written |
| AuthProxy.RelayedLength | s3-auth-proxy.js:103-107 | The length of the relayed bytes equals the sum of the chunk lengths |

## Left out

- HTTP and the network are not modelled:
  - the server and its listening port;
  - building and sending the upstream request (protocol choice, host and port, options), s3-auth-proxy.js:75-89. A synchronous throw from `http.request` or `https.request` (lines 86 and 88) is a 500 in the source, while `HandleRequest` answers `Forward` there;
  - streaming the client's body upstream, s3-auth-proxy.js:91-96, which has the same shape as `RelayResponse` but no counter;
  - copying the upstream status and headers, s3-auth-proxy.js:99-102;
  - logging (winston) and the log line's format.
- Configuration from the environment other than `ALLOWED_BUCKETS` is not modelled: the access keys, upstream URL and log level are parameters or absent.
- Cryptography and SDK helpers are uninterpreted functions. This covers HMAC-SHA256, SHA-256, hex and base64, and `AWS.util.queryStringParse`/`queryParamsToString`. The model proves nothing about their outputs except where they are placed.
- The proxy and the signer disagree on their interface. The handler reads `authorizationHeader`, and calls `authorizationHeaderFor`, `pathWithQuery` and a three-argument `changeAuthorization`, none of which signer.js defines. It also passes the logger where the signer expects the headers. As written, every request therefore throws inside the `try` and gets 500. `HandleRequest` instead takes the client's header, the recomputed header and the re-signed headers as `Result` inputs, and models the decision the handler intends.
- SigV4.ParseFields: the expression's `.+` groups backtrack greedily, and its `.` does not match line terminators. The model finds each marker at its first occurrence, so it agrees with the expression when every marker appears once. Headers that repeat `Credential=`, `SignedHeaders=` or `Signature=`, or that contain line terminators, are not modelled.
- SigV4.Headers is a map of single string values with lower-case names. Repeated headers given as arrays are not modelled. Neither are names that collide with JavaScript object prototype members (such as `constructor`), which the source would read as inherited values.
- AuthProxy.RelayResponse counts with an unbounded integer. JavaScript numbers are exact up to 2^53 bytes, so the difference does not arise in practice.
- Concurrency is not modelled: Node runs `getSigningKey` to completion without interleaving, so there are no concurrent cache updates to model.
- Presigned (query-string) authentication and `UNSIGNED-PAYLOAD` handling are not part of signer.js, and are not modelled.

## Findings

| source | as written | input that shows it | evidently intended | confidence | as-written member | corrected member |
|---|---|---|---|---|---|---|
| signer.js:77 | On overflow, `delete cachedSecret[cacheQueue.shift()]` names an undefined variable, so it throws a ReferenceError before `shift()` runs: nothing is evicted and the request fails | A cache already holding 50 keys, then a miss on a 51st distinct cache key (and every miss after it) | Delete the oldest key from `cachedKeys` and from the queue, keeping at most 50 entries | high (not executed) | SigningKeyCache.AsWrittenOverflowsAndThrows | SigningKeyCache.InsertedWellFormed |
