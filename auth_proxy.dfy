/** The proxy's per-request decision (s3-auth-proxy.js:36-127): compare the
    client's Authorization header with the one recomputed for the proxy's own
    credentials, gate the bucket against the allowlist, and forward the re-signed
    request upstream; plus the byte counter kept while relaying the response. */
module AuthProxy {
  import opened Wrappers
  import opened JsText
  import opened Primitives
  import opened SigV4

  /** Buckets whose names start with this pass the gate whatever the allowlist says. */
  const ProbeBucketPrefix := "probe-bucket-sign-"

  /** The allowlist: the comma-separated setting split at every comma (s3-auth-proxy.js:15). */
  function AllowedBuckets(setting: string): (names: seq<string>)
    ensures |names| >= 1
    ensures forall i :: 0 <= i < |names| ==> Free(names[i], {','})
  {
    Split(setting, {','})
  }

  /** A setting written as the names joined by commas yields exactly those names. */
  lemma AllowedBucketsListed(names: seq<string>)
    requires |names| >= 1
    requires forall i :: 0 <= i < |names| ==> Free(names[i], {','})
    ensures AllowedBuckets(Join(names, ",")) == names
  {
    SplitJoin(names, ',', {','});
  }

  /** The second piece of the url split at `/` and `?`; None where the source
      reads `undefined` (a url with neither character). */
  function BucketOf(url: string): Option<string>
  {
    var pieces := Split(url, {'/', '?'});
    if |pieces| >= 2 then Some(pieces[1]) else None
  }

  /** For a path-style url `/bucket` followed by nothing, `/…` or `?…`, the
      bucket is the first path segment. */
  lemma BucketOfPath(bucket: string, tail: string)
    requires Free(bucket, {'/', '?'})
    requires tail == "" || tail[0] == '/' || tail[0] == '?'
    ensures BucketOf("/" + (bucket + tail)) == Some(bucket)
  {
    var seps := {'/', '?'};
    assert "/" + (bucket + tail) == "" + ['/'] + (bucket + tail);
    SplitAtSeparator("", '/', bucket + tail, seps);
    if tail == "" {
      assert bucket + tail == bucket;
      SplitFree(bucket, seps);
    } else {
      assert bucket + tail == bucket + [tail[0]] + tail[1..];
      SplitAtSeparator(bucket, tail[0], tail[1..], seps);
    }
  }

  /** The bucket gate: a present, non-empty bucket must be on the allowlist or
      carry the probe prefix. */
  predicate BucketPermitted(bucket: Option<string>, allowed: seq<string>)
  {
    !(bucket.Some? && bucket.value != "" && bucket.value !in allowed
      && !StartsWith(bucket.value, ProbeBucketPrefix))
  }

  /** Two Authorization headers match when they agree once every whitespace
      character is removed. */
  predicate AuthorizationMatches(given: string, expected: string)
  {
    StripWhitespace(given) == StripWhitespace(expected)
  }

  /** What the proxy answers: a bare status (403, 500), or the request forwarded
      upstream with the client's method and the re-signed headers. */
  datatype Response =
    | Reject(status: int)
    | Forward(httpMethod: string, headers: Headers)

  /** One request. `given` and `expected` are the client's header and the one
      recomputed for the proxy's credentials, `resigned` the headers after the
      upstream re-signing; an `Err` in any of them is an exception the handler
      catches. */
  function HandleRequest<E>(httpMethod: string, url: string,
                            given: Result<string, E>, expected: Result<string, E>,
                            allowed: seq<string>, resigned: Result<Headers, E>): (r: Response)
    // only the two statuses are ever answered
    ensures r.Reject? ==> r.status == 403 || r.status == 500
    // an exception while reading or recomputing the header is a 500
    ensures given.Err? || expected.Err? ==> r == Reject(500)
    // a mismatching header is refused, whatever the url, allowlist or re-signing
    ensures given.Ok? && expected.Ok? && !AuthorizationMatches(given.value, expected.value) ==> r == Reject(403)
    // a matching header for a bucket outside the allowlist is refused
    ensures (given.Ok? && expected.Ok? && AuthorizationMatches(given.value, expected.value)
             && !BucketPermitted(BucketOf(url), allowed)) ==> r == Reject(403)
    // an exception while re-signing an authorised request is a 500
    ensures (given.Ok? && expected.Ok? && AuthorizationMatches(given.value, expected.value)
             && BucketPermitted(BucketOf(url), allowed) && resigned.Err?) ==> r == Reject(500)
    // an authorised request that was re-signed is forwarded
    ensures (given.Ok? && expected.Ok? && AuthorizationMatches(given.value, expected.value)
             && BucketPermitted(BucketOf(url), allowed) && resigned.Ok?) ==> r == Forward(httpMethod, resigned.value)
    // nothing is forwarded unless the header matched and the bucket passed, and
    // what is forwarded is the client's method with the re-signed headers
    ensures r.Forward? ==>
      && given.Ok? && expected.Ok? && AuthorizationMatches(given.value, expected.value)
      && BucketPermitted(BucketOf(url), allowed)
      && resigned == Ok(r.headers) && r.httpMethod == httpMethod
  {
    match (given, expected)
    case (Ok(g), Ok(e)) =>
      if !AuthorizationMatches(g, e) then Reject(403)
      else if !BucketPermitted(BucketOf(url), allowed) then Reject(403)
      else if resigned.Err? then Reject(500)
      else Forward(httpMethod, resigned.value)
    case _ => Reject(500)
  }

  /** Whitespace inserted anywhere in the client's header does not change the
      answer. */
  lemma WhitespaceIgnored<E>(httpMethod: string, url: string, before: string, space: string, after: string,
                             expected: Result<string, E>, allowed: seq<string>, resigned: Result<Headers, E>)
    requires forall i :: 0 <= i < |space| ==> IsWhitespace(space[i])
    ensures HandleRequest(httpMethod, url, Ok(before + space + after), expected, allowed, resigned)
         == HandleRequest(httpMethod, url, Ok(before + after), expected, allowed, resigned)
  {
    StripConcat(before + space, after);
    StripConcat(before, space);
    StripAllWhitespace(space);
    StripConcat(before, after);
  }

  /** Between headers free of whitespace, the comparison is plain equality. */
  lemma MatchIsEqualityWithoutWhitespace(given: string, expected: string)
    requires forall i :: 0 <= i < |given| ==> !IsWhitespace(given[i])
    requires forall i :: 0 <= i < |expected| ==> !IsWhitespace(expected[i])
    ensures AuthorizationMatches(given, expected) <==> given == expected
  {
    StripNoWhitespace(given);
    StripNoWhitespace(expected);
  }

  /** A client header that the signer's expression accepts matches the header
      the signer writes back from the same four fields, however it was spaced. */
  lemma ReformattedHeaderMatches(given: string)
    requires ParseFields(given).Some?
    ensures AuthorizationMatches(given, FormatAuthorization(ParseFields(given).value))
  {
    FormatParsedModuloWhitespace(given);
  }

  /** Equal strings with a common prefix have equal remainders. */
  lemma CancelPrefix(p: string, x: string, y: string)
    requires p + x == p + y
    ensures x == y
  {
    assert (p + x)[|p|..] == x;
    assert (p + y)[|p|..] == y;
  }

  /** A header whose signature was altered (beyond whitespace) no longer matches
      the header recomputed with the genuine signature: the request is refused
      with 403 before any bucket check or upstream call. */
  lemma TamperedSignatureForbidden<E>(httpMethod: string, url: string, h: AuthHeader, forged: string,
                                      allowed: seq<string>, resigned: Result<Headers, E>)
    requires StripWhitespace(forged) != StripWhitespace(h.signature)
    ensures HandleRequest(httpMethod, url, Ok(FormatAuthorization(h.(signature := forged))),
                          Ok(FormatAuthorization(h)), allowed, resigned) == Reject(403)
  {
    var g := h.(signature := forged);
    var p1, p2, p3 := StripWhitespace(h.algorithm), StripWhitespace(CredentialMarker), StripWhitespace(h.credential);
    var p4, p5, p6 := StripWhitespace(","), StripWhitespace(SignedHeadersName), StripWhitespace(h.signedHeaders);
    var p7 := StripWhitespace(SignatureName);
    var x, y := StripWhitespace(forged), StripWhitespace(h.signature);
    assert StripWhitespace(FormatAuthorization(g)) == p1 + (p2 + (p3 + (p4 + (p5 + (p6 + (p4 + (p7 + x))))))) by {
      StripFormatted(g);
    }
    assert StripWhitespace(FormatAuthorization(h)) == p1 + (p2 + (p3 + (p4 + (p5 + (p6 + (p4 + (p7 + y))))))) by {
      StripFormatted(h);
    }
    if AuthorizationMatches(FormatAuthorization(g), FormatAuthorization(h)) {
      CancelPrefix(p1, p2 + (p3 + (p4 + (p5 + (p6 + (p4 + (p7 + x)))))), p2 + (p3 + (p4 + (p5 + (p6 + (p4 + (p7 + y)))))));
      CancelPrefix(p2, p3 + (p4 + (p5 + (p6 + (p4 + (p7 + x))))), p3 + (p4 + (p5 + (p6 + (p4 + (p7 + y))))));
      CancelPrefix(p3, p4 + (p5 + (p6 + (p4 + (p7 + x)))), p4 + (p5 + (p6 + (p4 + (p7 + y)))));
      CancelPrefix(p4, p5 + (p6 + (p4 + (p7 + x))), p5 + (p6 + (p4 + (p7 + y))));
      CancelPrefix(p5, p6 + (p4 + (p7 + x)), p6 + (p4 + (p7 + y)));
      CancelPrefix(p6, p4 + (p7 + x), p4 + (p7 + y));
      CancelPrefix(p4, p7 + x, p7 + y);
      CancelPrefix(p7, x, y);
      assert false;
    }
  }

  /** An authorised request for a bucket neither on the allowlist nor carrying
      the probe prefix is refused with 403. */
  lemma DeniedBucketForbidden<E>(httpMethod: string, bucket: string, tail: string,
                                 given: string, expected: string, allowed: seq<string>, resigned: Result<Headers, E>)
    requires Free(bucket, {'/', '?'}) && bucket != ""
    requires tail == "" || tail[0] == '/' || tail[0] == '?'
    requires bucket !in allowed && !StartsWith(bucket, ProbeBucketPrefix)
    requires AuthorizationMatches(given, expected)
    ensures HandleRequest(httpMethod, "/" + (bucket + tail), Ok(given), Ok(expected), allowed, resigned) == Reject(403)
  {
    BucketOfPath(bucket, tail);
  }

  /** An authorised request for a bucket on the allowlist, or for any probe
      bucket, is forwarded once re-signing succeeds. */
  lemma PermittedBucketForwarded<E>(httpMethod: string, bucket: string, tail: string,
                                    given: string, expected: string, allowed: seq<string>, headers: Headers)
    requires Free(bucket, {'/', '?'})
    requires tail == "" || tail[0] == '/' || tail[0] == '?'
    requires bucket in allowed || StartsWith(bucket, ProbeBucketPrefix)
    requires AuthorizationMatches(given, expected)
    ensures HandleRequest<E>(httpMethod, "/" + (bucket + tail), Ok(given), Ok(expected), allowed, Ok(headers))
         == Forward(httpMethod, headers)
  {
    BucketOfPath(bucket, tail);
  }

  /** For a path-style url, a successfully re-signed request is forwarded
      exactly when the headers agree up to whitespace and the bucket is empty,
      allowlisted or probe-prefixed. */
  lemma ForwardedExactlyWhenAuthorised<E>(httpMethod: string, bucket: string, tail: string,
                                          given: string, expected: string, allowed: seq<string>, headers: Headers)
    requires Free(bucket, {'/', '?'})
    requires tail == "" || tail[0] == '/' || tail[0] == '?'
    ensures HandleRequest<E>(httpMethod, "/" + (bucket + tail), Ok(given), Ok(expected), allowed, Ok(headers))
              == Forward(httpMethod, headers)
        <==> StripWhitespace(given) == StripWhitespace(expected)
             && (bucket == "" || bucket in allowed || StartsWith(bucket, ProbeBucketPrefix))
  {
    BucketOfPath(bucket, tail);
  }

  /** A url whose first segment is empty — the root `/`, `/?query`, or one
      starting `//` — names no bucket, so the gate lets it through whatever the
      allowlist holds. */
  lemma EmptyFirstSegmentSkipsGate(tail: string, allowed: seq<string>)
    requires tail == "" || tail[0] == '/' || tail[0] == '?'
    ensures BucketOf("/" + tail) == Some("")
    ensures BucketPermitted(BucketOf("/" + tail), allowed)
  {
    BucketOfPath("", tail);
    assert "/" + ("" + tail) == "/" + tail;
  }

  /** A url with neither `/` nor `?` yields no bucket and passes the gate. */
  lemma NoSeparatorSkipsGate(url: string, allowed: seq<string>)
    requires Free(url, {'/', '?'})
    ensures BucketOf(url) == None
    ensures BucketPermitted(BucketOf(url), allowed)
  {
    SplitFree(url, {'/', '?'});
  }

  /** The bytes relayed for a sequence of chunks, in arrival order. */
  function Relayed(chunks: seq<Bytes>): Bytes
  {
    if chunks == [] then [] else Relayed(chunks[..|chunks| - 1]) + chunks[|chunks| - 1]
  }

  /** The sum of the chunk lengths. */
  function TotalLength(chunks: seq<Bytes>): nat
  {
    if chunks == [] then 0 else TotalLength(chunks[..|chunks| - 1]) + |chunks[|chunks| - 1]|
  }

  /** The counted size is the length of what was relayed. */
  lemma {:induction false} RelayedLength(chunks: seq<Bytes>)
    ensures |Relayed(chunks)| == TotalLength(chunks)
    decreases |chunks|
  {
    if chunks != [] {
      RelayedLength(chunks[..|chunks| - 1]);
    }
  }

  /** Relaying the upstream response: every chunk is written to the client as it
      arrives and its length added to `size` (s3-auth-proxy.js:103-107). */
  method RelayResponse(chunks: seq<Bytes>) returns (written: Bytes, size: nat)
    ensures written == Relayed(chunks)
    ensures size == TotalLength(chunks)
    ensures size == |written|
  {
    written, size := [], 0;
    for i := 0 to |chunks|
      invariant written == Relayed(chunks[..i])
      invariant size == TotalLength(chunks[..i])
    {
      assert chunks[..i + 1][..i] == chunks[..i];
      written := written + chunks[i];
      size := size + |chunks[i]|;
    }
    assert chunks[..|chunks|] == chunks;
    RelayedLength(chunks);
  }
}
