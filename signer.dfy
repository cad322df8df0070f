/** The SigV4 signer of signer.js: parsing the `Authorization` header, building
    the canonical request and the string to sign, deriving (and caching) the
    signing key, and rewriting the header for another access key. */
module SigV4 {
  import opened Wrappers
  import opened JsText
  import opened Primitives
  import opened SigningKeyCache

  const SupportedAlgorithm := "AWS4-HMAC-SHA256"

  /** Request headers, by lower-case name (as Node delivers them). */
  type Headers = map<string, string>

  /** The fields of the client request the signer reads. */
  datatype Request = Request(httpMethod: string, url: string, body: Option<string>)

  /** What the signer throws. */
  datatype SignerError =
    | MalformedAuthorization        // the header does not match, so `match[1]` is read from null
    | UnsupportedAlgorithm(algorithm: string)
    | UndefinedValue(what: string)  // an undefined credential part or `x-amz-date` reaches a string operation

  /** `String(headers[name])`: an absent header reads as the text "undefined". */
  function HeaderText(headers: Headers, name: string): string
  {
    if name in headers then headers[name] else "undefined"
  }

  /** `parts[i]`, `undefined` past the end. */
  function PartAt(parts: seq<string>, i: nat): Option<string>
  {
    if i < |parts| then Some(parts[i]) else None
  }

  /** How `Array.prototype.join` renders an element: `undefined` as "". */
  function JoinText(part: Option<string>): string
  {
    match part
    case Some(s) => s
    case None => ""
  }

  /** `parts.slice(1)`. */
  function Rest(parts: seq<string>): seq<string>
  {
    if parts == [] then [] else parts[1..]
  }

  /** `datetime.substr(0, 8)`: the `YYYYMMDD` part of a `YYYYMMDDTHHMMSSZ` datetime. */
  function DatePart(datetime: string): (date: string)
    ensures StartsWith(datetime, date)
    ensures |date| == if |datetime| < 8 then |datetime| else 8
  {
    if |datetime| <= 8 then datetime else datetime[..8]
  }

  // ---------------------------------------------------------------------------
  // The Authorization header

  /** The four groups of `/(.+) Credential=(.+),\s*SignedHeaders=(.+),\s*Signature=(.+)/`. */
  datatype AuthHeader = AuthHeader(algorithm: string, credential: string, signedHeaders: string, signature: string)

  const CredentialMarker := " Credential="
  const SignedHeadersName := "SignedHeaders="
  const SignatureName := "Signature="

  /** At index `j` of `s`: a comma, then `\s*`, then `name`. */
  predicate FieldAt(s: string, name: string, j: nat)
  {
    j < |s| && s[j] == ',' && MarkerAt(s, name, j + 1 + LeadingWhitespace(s[j + 1..]))
  }

  /** Where the value after the field marker found at `j` begins. */
  function ValueStart(s: string, name: string, j: nat): (v: nat)
    requires FieldAt(s, name, j)
    ensures v <= |s|
  {
    j + 1 + LeadingWhitespace(s[j + 1..]) + |name|
  }

  /** The first comma at or after `from` that starts the field marker `,\s*name`. */
  function FindField(s: string, name: string, from: nat): (r: Option<nat>)
    ensures r.Some? ==> from <= r.value && FieldAt(s, name, r.value)
    ensures r.Some? ==> forall k :: from <= k < r.value ==> !FieldAt(s, name, k)
    ensures r.None? ==> forall k :: from <= k ==> !FieldAt(s, name, k)
    decreases |s| - from
  {
    if from >= |s| then None
    else if FieldAt(s, name, from) then Some(from)
    else FindField(s, name, from + 1)
  }

  /** The header regular expression of signer.js:15, for header values in which
      each of its markers occurs once: every group runs up to the first
      occurrence of the marker that follows it, and every group is non-empty. */
  function ParseFields(header: string): Option<AuthHeader>
  {
    match IndexOf(header, CredentialMarker, 0)
    case None => None
    case Some(i) =>
      var afterAlgorithm := header[i + |CredentialMarker|..];
      match FindField(afterAlgorithm, SignedHeadersName, 0)
      case None => None
      case Some(j) =>
        var afterCredential := afterAlgorithm[ValueStart(afterAlgorithm, SignedHeadersName, j)..];
        match FindField(afterCredential, SignatureName, 0)
        case None => None
        case Some(k) =>
          var h := AuthHeader(header[..i], afterAlgorithm[..j], afterCredential[..k],
                              afterCredential[ValueStart(afterCredential, SignatureName, k)..]);
          if h.algorithm == "" || h.credential == "" || h.signedHeaders == "" || h.signature == "" then None
          else Some(h)
  }

  /** A header the expression accepts opens with the algorithm, ` Credential=`
      and the credential. */
  lemma ParsedHeaderOpens(header: string)
    requires ParseFields(header).Some?
    ensures var h := ParseFields(header).value;
      StartsWith(header, h.algorithm + (CredentialMarker + h.credential))
  {
    var i := IndexOf(header, CredentialMarker, 0).value;
    var o := i + |CredentialMarker|;
    var afterAlgorithm := header[o..];
    var j := FindField(afterAlgorithm, SignedHeadersName, 0).value;
    var h := ParseFields(header).value;
    assert h.algorithm == header[..i] && h.credential == afterAlgorithm[..j] by {}
    assert header[i..o] == CredentialMarker by {}
    assert j <= |afterAlgorithm| by {}
    assert header[..o + j] == header[..i] + (header[i..o] + afterAlgorithm[..j]) by {
      SlicesConcat(header, i, o, j);
    }
  }

  /** A prefix cut into three consecutive slices. */
  lemma SlicesConcat(s: string, i: nat, o: nat, n: nat)
    requires i <= o && o + n <= |s|
    ensures s[..o + n] == s[..i] + (s[i..o] + s[o..][..n])
  {
    assert s[o..][..n] == s[o..o + n];
    assert s[..o + n] == s[..o] + s[o..o + n];
    assert s[..o] == s[..i] + s[i..o];
  }

  /** What `authorization()` assembles (signer.js:40-46):
      `<algorithm> Credential=<credential>, SignedHeaders=<signed headers>, Signature=<signature>`. */
  function FormatAuthorization(h: AuthHeader): string
  {
    Join([h.algorithm + " " + ("Credential=" + h.credential),
          SignedHeadersName + h.signedHeaders,
          SignatureName + h.signature], ", ")
  }

  /** The characters `.` does not match in a regular expression. */
  const LineTerminators: set<char> := {'\n', '\r', 0x2028 as char, 0x2029 as char}

  /** The fields a header can carry so that the expression of signer.js:15
      finds each marker exactly once: no field holds a space (so ` Credential=`
      occurs once), no field after the algorithm holds a comma (so each
      `,\s*Name=` occurs once), and no field holds a line terminator. */
  predicate Delimited(h: AuthHeader)
  {
    && h.algorithm != "" && Free(h.algorithm, {' '}) && Free(h.algorithm, LineTerminators)
    && h.credential != "" && Free(h.credential, {',', ' '}) && Free(h.credential, LineTerminators)
    && h.signedHeaders != "" && Free(h.signedHeaders, {',', ' '}) && Free(h.signedHeaders, LineTerminators)
    && h.signature != "" && Free(h.signature, {',', ' '}) && Free(h.signature, LineTerminators)
  }

  lemma FormatLayout(h: AuthHeader)
    ensures FormatAuthorization(h)
         == h.algorithm + (CredentialMarker + (h.credential + (", " + (SignedHeadersName
            + (h.signedHeaders + (", " + (SignatureName + h.signature)))))))
  {
    var a, b, c := h.algorithm + " " + ("Credential=" + h.credential), SignedHeadersName + h.signedHeaders, SignatureName + h.signature;
    assert Join([b, c], ", ") == b + ", " + c;
    assert [a, b, c][1..] == [b, c];
  }

  /** The marker sits right after a prefix that holds no space. */
  lemma {:induction false} IndexOfAfterFree(x: string, rest: string)
    requires Free(x, {' '})
    ensures IndexOf(x + (CredentialMarker + rest), CredentialMarker, 0) == Some(|x|)
  {
    var s := x + (CredentialMarker + rest);
    assert s[|x|..|x| + |CredentialMarker|] == CredentialMarker;
    assert MarkerAt(s, CredentialMarker, |x|);
    forall k | 0 <= k < |x| ensures !MarkerAt(s, CredentialMarker, k) {
      assert s[k] == x[k];
    }
  }

  /** `, name` right after `x` is a field marker. */
  lemma FieldAtAfter(x: string, name: string, rest: string)
    requires name != [] && !IsWhitespace(name[0])
    ensures var s := x + (", " + (name + rest));
      FieldAt(s, name, |x|) && ValueStart(s, name, |x|) == |x| + 2 + |name|
  {
    var s := x + (", " + (name + rest));
    assert s[|x| + 1..] == " " + (name + rest);
    assert LeadingWhitespace(s[|x| + 1..]) == 1 by {
      assert (" " + (name + rest))[1..] == name + rest;
    }
    assert s[|x| + 2..|x| + 2 + |name|] == name;
  }

  /** The field marker `,\s*name` sits right after a comma-free prefix. */
  lemma {:induction false} FindFieldAfterFree(x: string, name: string, rest: string)
    requires Free(x, {','}) && name != [] && !IsWhitespace(name[0])
    ensures var s := x + (", " + (name + rest));
      FindField(s, name, 0) == Some(|x|) && ValueStart(s, name, |x|) == |x| + 2 + |name|
      && s[..|x|] == x && s[|x| + 2 + |name|..] == rest
  {
    var s := x + (", " + (name + rest));
    FieldAtAfter(x, name, rest);
    forall k | 0 <= k < |x| ensures !FieldAt(s, name, k) {
      assert s[k] == x[k];
    }
    assert s[|x| + 2 + |name|..] == rest;
  }

  /** Format/parse round trip: re-parsing a formatted header gives back its
      algorithm, credential, signed headers and signature. */
  lemma {:induction false} ParseFormatRoundTrip(h: AuthHeader)
    requires Delimited(h)
    ensures ParseFields(FormatAuthorization(h)) == Some(h)
  {
    var afterCredential := h.signedHeaders + (", " + (SignatureName + h.signature));
    var afterAlgorithm := h.credential + (", " + (SignedHeadersName + afterCredential));
    var s := h.algorithm + (CredentialMarker + afterAlgorithm);
    var i, j, k := |h.algorithm|, |h.credential|, |h.signedHeaders|;
    assert FormatAuthorization(h) == s by {
      FormatLayout(h);
    }
    assert IndexOf(s, CredentialMarker, 0) == Some(i)
        && s[..i] == h.algorithm && s[i + |CredentialMarker|..] == afterAlgorithm by {
      IndexOfAfterFree(h.algorithm, afterAlgorithm);
      assert s[..i] == h.algorithm;
      assert s[i + |CredentialMarker|..] == afterAlgorithm;
    }
    assert FindField(afterAlgorithm, SignedHeadersName, 0) == Some(j)
        && afterAlgorithm[..j] == h.credential
        && afterAlgorithm[ValueStart(afterAlgorithm, SignedHeadersName, j)..] == afterCredential by {
      FindFieldAfterFree(h.credential, SignedHeadersName, afterCredential);
    }
    assert FindField(afterCredential, SignatureName, 0) == Some(k)
        && afterCredential[..k] == h.signedHeaders
        && afterCredential[ValueStart(afterCredential, SignatureName, k)..] == h.signature by {
      FindFieldAfterFree(h.signedHeaders, SignatureName, h.signature);
    }
  }

  /** Removing whitespace around a marker found at `i`. */
  lemma StripAroundMarker(s: string, marker: string, i: nat)
    requires MarkerAt(s, marker, i)
    ensures StripWhitespace(s)
         == StripWhitespace(s[..i]) + (StripWhitespace(marker) + StripWhitespace(s[i + |marker|..]))
  {
    assert s == s[..i] + (marker + s[i + |marker|..]);
    StripConcat(s[..i], marker + s[i + |marker|..]);
    StripConcat(marker, s[i + |marker|..]);
  }

  /** What follows the comma of a field marker loses its leading whitespace. */
  lemma StripAfterComma(s: string, name: string, j: nat)
    requires FieldAt(s, name, j)
    ensures StripWhitespace(s[j + 1..]) == StripWhitespace(name) + StripWhitespace(s[ValueStart(s, name, j)..])
  {
    var t := s[j + 1..];
    var w := LeadingWhitespace(t);
    assert MarkerAt(t, name, w) by {
      assert MarkerAt(s, name, j + 1 + w);
      assert |t| == |s| - j - 1;
      forall n | 0 <= n < |name| ensures t[w + n] == name[n] {
        assert t[w + n] == s[j + 1 + w + n];
        assert s[j + 1 + w..j + 1 + w + |name|][n] == name[n];
      }
    }
    StripAroundMarker(t, name, w);
    StripAllWhitespace(t[..w]);
    assert t[w + |name|..] == s[ValueStart(s, name, j)..];
  }

  lemma StripAtComma(s: string, j: nat)
    requires j < |s| && s[j] == ','
    ensures StripWhitespace(s) == StripWhitespace(s[..j]) + (StripWhitespace(",") + StripWhitespace(s[j + 1..]))
  {
    assert s[j..] == "," + s[j + 1..] by {
      assert s[j..][0] == ',';
      assert s[j..][1..] == s[j + 1..];
    }
    assert s == s[..j] + s[j..];
    StripConcat(s[..j], s[j..]);
    StripConcat(",", s[j + 1..]);
  }

  /** Removing whitespace around a field marker `,\s*name` found at `j`: the
      whitespace it matched disappears. */
  lemma StripAroundField(s: string, name: string, j: nat)
    requires FieldAt(s, name, j)
    ensures StripWhitespace(s)
         == StripWhitespace(s[..j]) + (StripWhitespace(",") + (StripWhitespace(name)
            + StripWhitespace(s[ValueStart(s, name, j)..])))
  {
    StripAtComma(s, j);
    StripAfterComma(s, name, j);
  }

  /** The whitespace-free form of a parsed header, piece by piece. */
  lemma StripParsed(header: string)
    requires ParseFields(header).Some?
    ensures var h := ParseFields(header).value;
      StripWhitespace(header)
      == StripWhitespace(h.algorithm) + (StripWhitespace(CredentialMarker)
         + (StripWhitespace(h.credential) + (StripWhitespace(",") + (StripWhitespace(SignedHeadersName)
         + (StripWhitespace(h.signedHeaders) + (StripWhitespace(",") + (StripWhitespace(SignatureName)
         + StripWhitespace(h.signature))))))))
  {
    var i := IndexOf(header, CredentialMarker, 0).value;
    var afterAlgorithm := header[i + |CredentialMarker|..];
    var j := FindField(afterAlgorithm, SignedHeadersName, 0).value;
    var afterCredential := afterAlgorithm[ValueStart(afterAlgorithm, SignedHeadersName, j)..];
    var k := FindField(afterCredential, SignatureName, 0).value;
    var signature := afterCredential[ValueStart(afterCredential, SignatureName, k)..];
    assert ParseFields(header).value == AuthHeader(header[..i], afterAlgorithm[..j], afterCredential[..k], signature) by {}
    StripAroundMarker(header, CredentialMarker, i);
    StripAroundField(afterAlgorithm, SignedHeadersName, j);
    StripAroundField(afterCredential, SignatureName, k);
    Substitute(StripWhitespace(header), StripWhitespace(afterAlgorithm), StripWhitespace(afterCredential),
               StripWhitespace(header[..i]), StripWhitespace(CredentialMarker), StripWhitespace(afterAlgorithm[..j]),
               StripWhitespace(","), StripWhitespace(SignedHeadersName), StripWhitespace(afterCredential[..k]),
               StripWhitespace(SignatureName), StripWhitespace(signature));
  }

  lemma Substitute(a: string, b: string, c: string, p1: string, p2: string, p3: string,
                   p4: string, p5: string, p6: string, p7: string, p8: string)
    requires a == p1 + (p2 + b) && b == p3 + (p4 + (p5 + c)) && c == p6 + (p4 + (p7 + p8))
    ensures a == p1 + (p2 + (p3 + (p4 + (p5 + (p6 + (p4 + (p7 + p8)))))))
  {
  }

  /** Removing whitespace from `x` followed by a field marker and `rest`. */
  lemma StripBeforeField(x: string, name: string, rest: string)
    ensures StripWhitespace(x + (", " + (name + rest)))
         == StripWhitespace(x) + (StripWhitespace(",") + (StripWhitespace(name) + StripWhitespace(rest)))
  {
    StripConcat(x, ", " + (name + rest));
    StripConcat(", ", name + rest);
    StripConcat(name, rest);
    assert StripWhitespace(", ") == StripWhitespace(",") by {
      assert (", ")[1..] == " ";
    }
  }

  /** The whitespace-free form of a formatted header, piece by piece. */
  lemma StripFormatted(h: AuthHeader)
    ensures StripWhitespace(FormatAuthorization(h))
      == StripWhitespace(h.algorithm) + (StripWhitespace(CredentialMarker)
         + (StripWhitespace(h.credential) + (StripWhitespace(",") + (StripWhitespace(SignedHeadersName)
         + (StripWhitespace(h.signedHeaders) + (StripWhitespace(",") + (StripWhitespace(SignatureName)
         + StripWhitespace(h.signature))))))))
  {
    var fCredential := h.signedHeaders + (", " + (SignatureName + h.signature));
    var fAlgorithm := h.credential + (", " + (SignedHeadersName + fCredential));
    FormatLayout(h);
    StripConcat(h.algorithm, CredentialMarker + fAlgorithm);
    StripConcat(CredentialMarker, fAlgorithm);
    StripBeforeField(h.credential, SignedHeadersName, fCredential);
    StripBeforeField(h.signedHeaders, SignatureName, h.signature);
  }

  /** Parsing then formatting changes only whitespace: a header the parser
      accepts equals, once all whitespace is removed, the header formatted from
      its fields (whatever `\s*` matched after each comma). */
  lemma FormatParsedModuloWhitespace(header: string)
    requires ParseFields(header).Some?
    ensures StripWhitespace(FormatAuthorization(ParseFields(header).value)) == StripWhitespace(header)
  {
    StripParsed(header);
    StripFormatted(ParseFields(header).value);
  }

  /** `new Signer(request, headers)` up to the algorithm check (signer.js:13-29):
      parse `headers.authorization`, then refuse any algorithm but AWS4-HMAC-SHA256. */
  function ParseAuthorization(headers: Headers): (r: Result<AuthHeader, SignerError>)
    // accepted exactly when the expression matches and names the supported algorithm
    ensures r.Ok? <==> (ParseFields(HeaderText(headers, "authorization")).Some?
                        && ParseFields(HeaderText(headers, "authorization")).value.algorithm == SupportedAlgorithm)
    ensures r.Ok? ==> ParseFields(HeaderText(headers, "authorization")) == Some(r.value)
    // a missing header reads as "undefined", which does not match
    ensures "authorization" !in headers ==> r == Err(MalformedAuthorization)
  {
    match ParseFields(HeaderText(headers, "authorization"))
    case None => Err(MalformedAuthorization)
    case Some(h) =>
      if h.algorithm != SupportedAlgorithm then Err(UnsupportedAlgorithm(h.algorithm)) else Ok(h)
  }

  /** The header `changeAuthorization` writes parses back (with the constructor's
      checks) to the same algorithm, signed headers and signature, and to a
      credential that splits into the same parts. */
  lemma {:induction false} ReparseFormatted(headers: Headers, parts: seq<string>, signedHeaders: string, signature: string)
    requires |parts| >= 1 && parts[0] != ""
    requires forall i :: 0 <= i < |parts| ==> Free(parts[i], {'/', ',', ' '}) && Free(parts[i], LineTerminators)
    requires signedHeaders != "" && Free(signedHeaders, {',', ' '}) && Free(signedHeaders, LineTerminators)
    requires signature != "" && Free(signature, {',', ' '}) && Free(signature, LineTerminators)
    ensures var h := AuthHeader(SupportedAlgorithm, Join(parts, "/"), signedHeaders, signature);
      && ParseAuthorization(headers["authorization" := FormatAuthorization(h)]) == Ok(h)
      && Split(h.credential, {'/'}) == parts
  {
    var credential := Join(parts, "/");
    JoinFree(parts, "/", {',', ' '});
    JoinFree(parts, "/", LineTerminators);
    SplitJoin(parts, '/', {'/'});
    forall i | 0 <= i < |parts| ensures Free(parts[i], {'/'}) {
      assert Free(parts[i], {'/', ',', ' '});
    }
    assert credential != "" by {
      if |parts| > 1 { assert credential == parts[0] + "/" + Join(parts[1..], "/"); }
    }
    ParseFormatRoundTrip(AuthHeader(SupportedAlgorithm, credential, signedHeaders, signature));
  }

  // ---------------------------------------------------------------------------
  // The signer

  class Signer {
    const lib: Library
    /** The module-level cache, shared by every signer. */
    const cache: KeyCache
    const request: Request
    var headers: Headers
    const algorithm: string
    var credentialParts: seq<string>
    const signedHeaders: string
    const signedHeaderParts: seq<string>
    const region: Option<string>
    const service: Option<string>
    const requestIdentifier: Option<string>

    ghost predicate Valid()
      reads this, cache
    {
      && cache.Valid()
      && |credentialParts| >= 1
      && (forall i :: 1 <= i < |credentialParts| ==> Free(credentialParts[i], {'/'}))
      && region == PartAt(credentialParts, 2)
      && service == PartAt(credentialParts, 3)
      && requestIdentifier == PartAt(credentialParts, 4)
      && signedHeaderParts == Split(signedHeaders, {';'})
    }

    /** The field assignments of the constructor (signer.js:14-25) from the parsed header. */
    constructor (lib: Library, cache: KeyCache, request: Request, headers: Headers, auth: AuthHeader)
      requires cache.Valid()
      ensures Valid()
      ensures this.lib == lib && this.cache == cache && this.request == request && this.headers == headers
      ensures algorithm == auth.algorithm && signedHeaders == auth.signedHeaders
      ensures credentialParts == Split(auth.credential, {'/'})
      ensures signedHeaderParts == Split(auth.signedHeaders, {';'})
      ensures region == PartAt(credentialParts, 2) && service == PartAt(credentialParts, 3)
      ensures requestIdentifier == PartAt(credentialParts, 4)
    {
      this.lib := lib;
      this.cache := cache;
      this.request := request;
      this.headers := headers;
      algorithm := auth.algorithm;
      var parts := Split(auth.credential, {'/'});
      credentialParts := parts;
      signedHeaders := auth.signedHeaders;
      signedHeaderParts := Split(auth.signedHeaders, {';'});
      region := PartAt(parts, 2);
      service := PartAt(parts, 3);
      requestIdentifier := PartAt(parts, 4);
    }

    /** `url.split('?', 1)[0]`: the url up to its first `?`. */
    function Pathname(): (p: string)
      ensures StartsWith(request.url, p) && Free(p, {'?'})
      ensures |p| < |request.url| ==> request.url[|p|] == '?'
    {
      SplitFirst(request.url, {'?'});
      Split(request.url, {'?'})[0]
    }

    /** The canonical query (signer.js:134-141): the text between the first and
        second `?`, through the SDK's parser and serialiser; "" when it is empty
        or there is no `?`. */
    function RequestSearch(): string
    {
      var pieces := Split(request.url, {'?'});
      if |pieces| >= 2 && pieces[1] != "" then lib.queryParamsToString(lib.queryStringParse(pieces[1]))
      else ""
    }

    /** One `name:value` line per signed header, in the listed order (signer.js:110-116). */
    function CanonicalHeaders(): string
      reads this
    {
      Join(HeaderLines(signedHeaderParts, headers), "\n")
    }

    /** `x-amz-content-sha256` verbatim when it is set and non-empty, otherwise the
        SHA-256 of the body, or of "" when there is no body (signer.js:118-124). */
    function HexEncodedBodyHash(): string
      reads this
    {
      if "x-amz-content-sha256" in headers && headers["x-amz-content-sha256"] != "" then
        headers["x-amz-content-sha256"]
      else
        lib.sha256Hex(match request.body case Some(b) => b case None => "")
    }

    /** The canonical request (signer.js:97-108). */
    function CanonicalString(): string
      reads this
    {
      Join([request.httpMethod, Pathname(), RequestSearch(), CanonicalHeaders() + "\n",
            signedHeaders, HexEncodedBodyHash()], "\n")
    }

    /** The credential scope: the credential parts after the access key, joined
        by `/`. Like the source, it ignores `datetime` (signer.js:93-95). */
    function Scope(datetime: string): string
      reads this
    {
      Join(Rest(credentialParts), "/")
    }

    /** The string to sign (signer.js:84-91). */
    function StringToSign(datetime: string): string
      reads this
    {
      Join([SupportedAlgorithm, datetime, Scope(datetime), lib.sha256Hex(CanonicalString())], "\n")
    }

    /** `hmac(signingKey, stringToSign(datetime), 'hex')`. */
    function SignatureWith(signingKey: Bytes, datetime: string): string
      reads this
    {
      lib.hex(lib.hmac(ByteKey(signingKey), StringToSign(datetime)))
    }

    /** The cache key (signer.js:59-60): `[hmac(secret, id) as base64, date,
        region, service].join('_')`. The request identifier is not part of it. */
    function CacheKey(accessKeyId: string, secretAccessKey: string, date: string): string
    {
      Join([lib.base64(lib.hmac(TextKey(secretAccessKey), accessKeyId)), date,
            JoinText(region), JoinText(service)], "_")
    }

    /** The HMAC chain date, region, service, request identifier (signer.js:64-71);
        an undefined part makes the HMAC call throw. */
    function DeriveKey(secretAccessKey: string, date: string): (r: Result<Bytes, SignerError>)
      // the chain throws exactly when region, service or request identifier is undefined
      ensures r.Ok? <==> region.Some? && service.Some? && requestIdentifier.Some?
    {
      match (region, service, requestIdentifier)
      case (Some(r), Some(s), Some(q)) =>
        var kDate := lib.hmac(TextKey("AWS4" + secretAccessKey), date);
        var kRegion := lib.hmac(ByteKey(kDate), r);
        var kService := lib.hmac(ByteKey(kRegion), s);
        Ok(lib.hmac(ByteKey(kService), q))
      case _ => Err(UndefinedValue("credential scope part"))
    }

    /** The signing key `getSigningKey` returns from the cache state `s`. */
    function KeyFor(s: CacheState, accessKeyId: string, secretAccessKey: string, date: string): Result<Bytes, SignerError>
    {
      Lookup(s, CacheKey(accessKeyId, secretAccessKey, date), DeriveKey(secretAccessKey, date))
    }

    /** The cache after `getSigningKey` from the cache state `s`. */
    function CacheAfter(s: CacheState, accessKeyId: string, secretAccessKey: string, date: string): CacheState
    {
      AfterLookup(s, CacheKey(accessKeyId, secretAccessKey, date), DeriveKey(secretAccessKey, date))
    }

    /** signer.js:58-82: a hit returns the stored key and leaves the cache (and
        its order) alone; a miss derives the key, stores exactly what it returns
        and evicts the oldest entry once over the bound. */
    method GetSigningKey(accessKeyId: string, secretAccessKey: string, date: string)
      returns (r: Result<Bytes, SignerError>)
      requires Valid()
      modifies cache
      ensures Valid()
      ensures r == KeyFor(old(cache.State()), accessKeyId, secretAccessKey, date)
      ensures cache.State() == CacheAfter(old(cache.State()), accessKeyId, secretAccessKey, date)
      ensures r.Ok? ==> (CacheKey(accessKeyId, secretAccessKey, date) in cache.keys
                         && cache.keys[CacheKey(accessKeyId, secretAccessKey, date)] == r.value)
    {
      var key := CacheKey(accessKeyId, secretAccessKey, date);
      LookupStores(cache.State(), key, DeriveKey(secretAccessKey, date));
      if key in cache.keys {
        r := Ok(cache.keys[key]);
      } else {
        r := DeriveKey(secretAccessKey, date);
        if r.Ok? {
          cache.Store(key, r.value);
        }
      }
    }

    /** signer.js:53-56: the key comes from the date part of `datetime` only. */
    method Signature(accessKeyId: string, secretAccessKey: string, datetime: string)
      returns (r: Result<string, SignerError>)
      requires Valid()
      modifies cache
      ensures Valid()
      ensures cache.State() == CacheAfter(old(cache.State()), accessKeyId, secretAccessKey, DatePart(datetime))
      ensures var key := KeyFor(old(cache.State()), accessKeyId, secretAccessKey, DatePart(datetime));
        r == if key.Ok? then Ok(SignatureWith(key.value, datetime)) else Err(key.error)
    {
      var signingKey := GetSigningKey(accessKeyId, secretAccessKey, DatePart(datetime));
      match signingKey
      case Ok(k) => r := Ok(SignatureWith(k, datetime));
      case Err(e) => r := Err(e);
    }

    /** signer.js:48-51: overwrites the first credential part with the access key. */
    method CredentialString(accessKeyId: string) returns (r: string)
      requires Valid()
      modifies this`credentialParts
      ensures Valid()
      ensures credentialParts == old(credentialParts)[0 := accessKeyId]
      ensures Rest(credentialParts) == Rest(old(credentialParts))
      ensures r == "Credential=" + Join(credentialParts, "/")
    {
      credentialParts := credentialParts[0 := accessKeyId];
      assert Rest(credentialParts) == Rest(old(credentialParts));
      r := "Credential=" + Join(credentialParts, "/");
    }

    /** signer.js:40-46: the header for `accessKeyId`, with the first credential
        part rewritten and the signature computed over the request as it is. */
    method Authorization(accessKeyId: string, secretAccessKey: string, datetime: string)
      returns (r: Result<string, SignerError>)
      requires Valid()
      modifies this`credentialParts, cache
      ensures Valid()
      ensures credentialParts == old(credentialParts)[0 := accessKeyId]
      ensures cache.State() == CacheAfter(old(cache.State()), accessKeyId, secretAccessKey, DatePart(datetime))
      ensures StringToSign(datetime) == old(StringToSign(datetime))
      ensures var key := KeyFor(old(cache.State()), accessKeyId, secretAccessKey, DatePart(datetime));
        r == if key.Ok? then
               Ok(FormatAuthorization(AuthHeader(algorithm, Join(credentialParts, "/"), signedHeaders,
                                                 SignatureWith(key.value, datetime))))
             else Err(key.error)
    {
      ghost var toSign := StringToSign(datetime);
      var credential := CredentialString(accessKeyId);
      assert Scope(datetime) == old(Scope(datetime));
      assert StringToSign(datetime) == toSign;
      var signature := Signature(accessKeyId, secretAccessKey, datetime);
      match signature
      case Ok(sig) =>
        r := Ok(Join([algorithm + " " + credential, "SignedHeaders=" + signedHeaders, "Signature=" + sig], ", "));
      case Err(e) =>
        r := Err(e);
    }

    /** signer.js:32-38: re-sign for another access key with the request's own
        `x-amz-date`, replacing `headers.authorization` and nothing else. When
        `x-amz-date` is absent the signature step throws, after the credential
        part was already overwritten. */
    method ChangeAuthorization(accessKeyId: string, secretAccessKey: string)
      returns (r: Outcome<SignerError>)
      requires Valid()
      modifies this`headers, this`credentialParts, cache
      ensures Valid()
      ensures credentialParts == old(credentialParts)[0 := accessKeyId]
      ensures "x-amz-date" !in old(headers) ==>
        r == Fail(UndefinedValue("x-amz-date")) && headers == old(headers) && cache.State() == old(cache.State())
      ensures "x-amz-date" in old(headers) ==>
        var datetime := old(headers)["x-amz-date"];
        var key := KeyFor(old(cache.State()), accessKeyId, secretAccessKey, DatePart(datetime));
        && cache.State() == CacheAfter(old(cache.State()), accessKeyId, secretAccessKey, DatePart(datetime))
        && (key.Err? ==> r == Fail(key.error) && headers == old(headers))
        && (key.Ok? ==> r == Pass && headers == old(headers)["authorization" :=
              FormatAuthorization(AuthHeader(algorithm, Join(credentialParts, "/"), signedHeaders,
                                             old(SignatureWith(key.value, datetime))))])
    {
      if "x-amz-date" !in headers {
        var _ := CredentialString(accessKeyId);
        r := Fail(UndefinedValue("x-amz-date"));
      } else {
        var datetime := headers["x-amz-date"];
        var authorization := Authorization(accessKeyId, secretAccessKey, datetime);
        match authorization
        case Ok(a) =>
          headers := headers["authorization" := a];
          r := Pass;
        case Err(e) =>
          r := Fail(e);
      }
    }
  }

  /** A miss followed by a hit on the same cache key: both calls return the
      signer's own derivation. */
  lemma MissThenHit(s: Signer, c: CacheState, accessKeyId: string, secretAccessKey: string, date: string)
    requires WellFormed(c) && s.CacheKey(accessKeyId, secretAccessKey, date) !in c.keys
    ensures s.KeyFor(c, accessKeyId, secretAccessKey, date) == s.DeriveKey(secretAccessKey, date)
    ensures var c' := s.CacheAfter(c, accessKeyId, secretAccessKey, date);
      WellFormed(c') && s.KeyFor(c', accessKeyId, secretAccessKey, date) == s.DeriveKey(secretAccessKey, date)
  {
    LookupStores(c, s.CacheKey(accessKeyId, secretAccessKey, date), s.DeriveKey(secretAccessKey, date));
  }

  /** The cache key leaves out the request identifier, so two signers that
      differ only there share an entry: after the first derives and stores its
      key, the second is served the first one's key. The two derivations agree
      when the request identifiers do. */
  lemma SharedCacheEntry(a: Signer, b: Signer, c: CacheState, accessKeyId: string, secretAccessKey: string, date: string)
    requires WellFormed(c)
    requires a.lib == b.lib && a.region == b.region && a.service == b.service
    requires a.CacheKey(accessKeyId, secretAccessKey, date) !in c.keys && a.DeriveKey(secretAccessKey, date).Ok?
    ensures b.CacheKey(accessKeyId, secretAccessKey, date) == a.CacheKey(accessKeyId, secretAccessKey, date)
    ensures b.KeyFor(a.CacheAfter(c, accessKeyId, secretAccessKey, date), accessKeyId, secretAccessKey, date)
         == a.DeriveKey(secretAccessKey, date)
    ensures a.requestIdentifier == b.requestIdentifier ==>
      a.DeriveKey(secretAccessKey, date) == b.DeriveKey(secretAccessKey, date)
  {
    LookupStores(c, a.CacheKey(accessKeyId, secretAccessKey, date), a.DeriveKey(secretAccessKey, date));
  }

  /** The cache key joins its parts with `_`, which the parts may contain: a
      signer for region `b_c` on date `a` and one for region `c` on date `a_b`
      build the same key. */
  lemma CacheKeyUnderscoreCollision(a: Signer, b: Signer, accessKeyId: string, secretAccessKey: string)
    requires a.lib == b.lib && a.service == b.service
    requires a.region == Some("b_c") && b.region == Some("c")
    ensures a.CacheKey(accessKeyId, secretAccessKey, "a") == b.CacheKey(accessKeyId, secretAccessKey, "a_b")
  {
    var id := a.lib.base64(a.lib.hmac(TextKey(secretAccessKey), accessKeyId));
    var service := JoinText(a.service);
    assert Join([id, "a", "b_c", service], "_") == id + "_" + ("a" + "_" + ("b_c" + "_" + service)) by {
      assert [id, "a", "b_c", service][1..] == ["a", "b_c", service];
      assert ["a", "b_c", service][1..] == ["b_c", service];
      assert Join(["b_c", service], "_") == "b_c" + "_" + service;
    }
    assert Join([id, "a_b", "c", service], "_") == id + "_" + ("a_b" + "_" + ("c" + "_" + service)) by {
      assert [id, "a_b", "c", service][1..] == ["a_b", "c", service];
      assert ["a_b", "c", service][1..] == ["c", service];
      assert Join(["c", service], "_") == "c" + "_" + service;
    }
    assert "a" + "_" + ("b_c" + "_" + service) == "a_b" + "_" + ("c" + "_" + service);
  }

  /** The canonical request, split at its line breaks, is the method, the path,
      the canonical query, one `name:value` line per signed header, an empty line,
      the signed-header list and the payload hash, provided none of these holds
      a line break. */
  lemma CanonicalStringLayout(s: Signer)
    requires s.Valid()
    requires Free(s.request.httpMethod, {'\n'}) && Free(s.Pathname(), {'\n'}) && Free(s.RequestSearch(), {'\n'})
    requires forall i :: 0 <= i < |s.signedHeaderParts| ==> Free(HeaderLines(s.signedHeaderParts, s.headers)[i], {'\n'})
    requires Free(s.signedHeaders, {'\n'}) && Free(s.HexEncodedBodyHash(), {'\n'})
    ensures Split(s.CanonicalString(), {'\n'})
         == [s.request.httpMethod, s.Pathname(), s.RequestSearch()] + HeaderLines(s.signedHeaderParts, s.headers)
            + ["", s.signedHeaders, s.HexEncodedBodyHash()]
  {
    var lines := HeaderLines(s.signedHeaderParts, s.headers);
    var front := [s.request.httpMethod, s.Pathname(), s.RequestSearch()];
    var tail := [s.signedHeaders, s.HexEncodedBodyHash()];
    assert s.CanonicalString() == Join(front + ([s.CanonicalHeaders() + "\n"] + tail), "\n") by {
      assert [s.request.httpMethod, s.Pathname(), s.RequestSearch(), s.CanonicalHeaders() + "\n",
              s.signedHeaders, s.HexEncodedBodyHash()] == front + ([s.CanonicalHeaders() + "\n"] + tail);
    }
    JoinBlock(front, lines, tail, "\n");
    var all := front + (lines + ([""] + tail));
    assert all == [s.request.httpMethod, s.Pathname(), s.RequestSearch()] + lines
                  + ["", s.signedHeaders, s.HexEncodedBodyHash()];
    forall i | 0 <= i < |all| ensures Free(all[i], {'\n'}) {
      if 3 <= i < 3 + |lines| {
        assert all[i] == lines[i - 3];
      } else if i == 3 + |lines| {
        assert all[i] == "";
      }
    }
    SplitJoin(all, '\n', {'\n'});
  }

  /** Joining lines and then ending the block with a separator, inside a larger
      join, reads as the lines themselves followed by an empty line. */
  lemma JoinBlock(front: seq<string>, lines: seq<string>, tail: seq<string>, sep: string)
    requires |front| >= 1 && |lines| >= 1 && |tail| >= 1
    ensures Join(front + ([Join(lines, sep) + sep] + tail), sep) == Join(front + (lines + ([""] + tail)), sep)
  {
    var x := Join([Join(lines, sep) + sep] + tail, sep);
    var y := Join(lines + ([""] + tail), sep);
    assert x == y by {
      BlockThenTail(lines, tail, sep);
    }
    assert Join(front + ([Join(lines, sep) + sep] + tail), sep) == Join(front, sep) + sep + x by {
      JoinAppend(front, [Join(lines, sep) + sep] + tail, sep);
    }
    assert Join(front + (lines + ([""] + tail)), sep) == Join(front, sep) + sep + y by {
      JoinAppend(front, lines + ([""] + tail), sep);
    }
  }

  /** The inner step of `JoinBlock`, without the leading lines. */
  lemma BlockThenTail(lines: seq<string>, tail: seq<string>, sep: string)
    requires |lines| >= 1 && |tail| >= 1
    ensures Join([Join(lines, sep) + sep] + tail, sep) == Join(lines + ([""] + tail), sep)
  {
    var block, jt := Join(lines, sep) + sep, Join(tail, sep);
    var left := Join([block] + tail, sep);
    var right := Join(lines + ([""] + tail), sep);
    assert left == block + sep + jt by {
      JoinAppend([block], tail, sep);
    }
    assert Join([""] + tail, sep) == sep + jt by {
      JoinAppend([""], tail, sep);
      assert "" + sep == sep;
    }
    assert right == block + (sep + jt) by {
      JoinAppend(lines, [""] + tail, sep);
    }
    ConcatAssociates(block, sep, jt);
  }

  lemma ConcatAssociates(a: string, b: string, c: string)
    ensures a + b + c == a + (b + c)
  {
  }

  /** With a non-empty `x-amz-content-sha256` header the payload hash is taken on
      trust: two requests that differ only in their bodies have the same canonical
      request, so the signature does not cover the body. */
  lemma DeclaredPayloadHashIgnoresBody(s: Signer, t: Signer)
    requires s.lib == t.lib && s.headers == t.headers
    requires s.request.httpMethod == t.request.httpMethod && s.request.url == t.request.url
    requires s.signedHeaders == t.signedHeaders && s.signedHeaderParts == t.signedHeaderParts
    requires "x-amz-content-sha256" in s.headers && s.headers["x-amz-content-sha256"] != ""
    ensures s.HexEncodedBodyHash() == t.HexEncodedBodyHash() == s.headers["x-amz-content-sha256"]
    ensures s.CanonicalString() == t.CanonicalString()
  {
  }

  /** The string to sign is four lines: the algorithm, the datetime, the scope
      and the SHA-256 of the canonical request. */
  lemma StringToSignLayout(s: Signer, datetime: string)
    requires Free(datetime, {'\n'}) && Free(s.Scope(datetime), {'\n'})
    requires Free(s.lib.sha256Hex(s.CanonicalString()), {'\n'})
    ensures Split(s.StringToSign(datetime), {'\n'})
         == [SupportedAlgorithm, datetime, s.Scope(datetime), s.lib.sha256Hex(s.CanonicalString())]
  {
    var lines := [SupportedAlgorithm, datetime, s.Scope(datetime), s.lib.sha256Hex(s.CanonicalString())];
    forall i | 0 <= i < |lines| ensures Free(lines[i], {'\n'}) {
      if i == 0 {
        assert Free(SupportedAlgorithm, {'\n'});
      }
    }
    SplitJoin(lines, '\n', {'\n'});
  }

  /** The scope splits back into the credential parts after the access key
      (date, region, service, request identifier for a five-part credential),
      whatever `datetime` is. */
  lemma ScopeFields(s: Signer, datetime: string)
    requires s.Valid() && |s.credentialParts| >= 2
    ensures Split(s.Scope(datetime), {'/'}) == s.credentialParts[1..]
    ensures |s.credentialParts| == 5 ==>
      Split(s.Scope(datetime), {'/'}) == [s.credentialParts[1], s.region.value, s.service.value, s.requestIdentifier.value]
  {
    var rest := s.credentialParts[1..];
    forall i | 0 <= i < |rest| ensures Free(rest[i], {'/'}) {
      assert rest[i] == s.credentialParts[i + 1];
    }
    SplitJoin(rest, '/', {'/'});
  }

  /** For a url `path?query` (optionally followed by `?more`), the canonical path
      is `path` and the canonical query is the SDK's form of `query` alone ("" if
      `query` is empty); for a url without `?`, the path is the whole url and
      the query is "". */
  lemma UrlParts(s: Signer, path: string, query: string, more: string)
    requires Free(path, {'?'}) && Free(query, {'?'})
    requires s.request.url == path + ("?" + (query + more)) && (more == "" || more[0] == '?')
    ensures s.Pathname() == path
    ensures s.RequestSearch()
         == if query == "" then "" else s.lib.queryParamsToString(s.lib.queryStringParse(query))
  {
    SplitAtSeparator(path, '?', query + more, {'?'});
    assert path + ("?" + (query + more)) == path + ['?'] + (query + more);
    if more == "" {
      assert query + more == query;
      SplitFree(query, {'?'});
    } else {
      assert query + more == query + ['?'] + more[1..];
      SplitAtSeparator(query, '?', more[1..], {'?'});
    }
  }

  lemma UrlWithoutQuery(s: Signer)
    requires Free(s.request.url, {'?'})
    ensures s.Pathname() == s.request.url && s.RequestSearch() == ""
  {
    SplitFree(s.request.url, {'?'});
  }

  /** `header: value` lines for the listed names, in order. */
  function HeaderLines(names: seq<string>, headers: Headers): (lines: seq<string>)
    ensures |lines| == |names|
    ensures forall i :: 0 <= i < |names| ==> lines[i] == names[i] + ":" + HeaderText(headers, names[i])
  {
    if names == [] then []
    else [names[0] + ":" + HeaderText(headers, names[0])] + HeaderLines(names[1..], headers)
  }

  /** `new Signer(request, headers)` (signer.js:13-30): throws on a header the
      expression does not match and on an unsupported algorithm. */
  method NewSigner(lib: Library, cache: KeyCache, request: Request, headers: Headers)
    returns (r: Result<Signer, SignerError>)
    requires cache.Valid()
    ensures ParseAuthorization(headers).Err? ==> r == Err(ParseAuthorization(headers).error)
    ensures ParseAuthorization(headers).Ok? ==>
      var auth := ParseAuthorization(headers).value;
      && r.Ok? && fresh(r.value) && r.value.Valid()
      && r.value.lib == lib && r.value.cache == cache && r.value.request == request && r.value.headers == headers
      && r.value.algorithm == SupportedAlgorithm && r.value.signedHeaders == auth.signedHeaders
      && r.value.credentialParts == Split(auth.credential, {'/'})
      && r.value.signedHeaderParts == Split(auth.signedHeaders, {';'})
  {
    match ParseAuthorization(headers)
    case Err(e) =>
      r := Err(e);
    case Ok(auth) =>
      var signer := new Signer(lib, cache, request, headers, auth);
      r := Ok(signer);
  }
}
