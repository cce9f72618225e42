/**
 * The bearer-header parsing of the authentication middleware: `getAuthToken` reads the
 * `Authorization` header, stores the token it finds on the request and always hands the
 * request on to the next handler.
 */
module VerifyToken {
  import opened Wrappers
  import opened JsString

  /** What `req.authToken` holds afterwards: `null`, `undefined`, or a string. */
  datatype AuthToken = Null | Undefined | Token(value: string)

  /**
   * What an Express middleware does with a request: hand it on with `next()`, carrying
   * the token it stored, or answer it itself.
   */
  datatype MiddlewareStep = Next(authToken: AuthToken) | Respond(status: int, error: string)

  /**
   * The header names the `Bearer` scheme exactly (case-sensitive): it is `Bearer` alone
   * or starts with `Bearer` followed by a space.
   */
  predicate HasBearerScheme(header: Option<string>) {
    header.Some? && (header.value == "Bearer" || "Bearer " <= header.value)
  }

  /**
   * `getAuthToken`: an absent or empty header, or one whose first space-separated segment
   * is not exactly `Bearer`, gives `null`; otherwise the token is the second segment, which
   * is `undefined` when the header is `Bearer` with nothing after it. The request always
   * goes on to the next handler.
   */
  function GetAuthToken(header: Option<string>): (r: MiddlewareStep)
    ensures r.Next?
    ensures r.authToken.Null? <==> !HasBearerScheme(header)
    ensures r.authToken.Undefined? <==> header == Some("Bearer")
    ensures r.authToken.Token? ==>
              "Bearer " <= header.value && IsFirstSegment(r.authToken.value, header.value[7..])
  {
    if header.Some? && header.value != "" && Split(header.value)[0] == "Bearer" then
      var parts := Split(header.value);
      BearerSegments(header.value);
      Next(if |parts| > 1 then Token(parts[1]) else Undefined)
    else if header.Some? then
      BearerSchemeIsFirstSegment(header.value);
      Next(Null)
    else
      Next(Null)
  }

  /** The first segment of a header is `Bearer` exactly when the header has that scheme. */
  lemma BearerSchemeIsFirstSegment(h: string)
    ensures Split(h)[0] == "Bearer" <==> HasBearerScheme(Some(h))
  {
    SplitFirst(h);
    if HasBearerScheme(Some(h)) {
      assert IsFirstSegment("Bearer", h);
      FirstSegmentUnique("Bearer", Split(h)[0], h);
    }
  }

  /** The segments of a header whose first segment is `Bearer`. */
  lemma BearerSegments(h: string)
    requires Split(h)[0] == "Bearer"
    ensures |Split(h)| > 1 <==> "Bearer " <= h
    ensures |Split(h)| == 1 <==> h == "Bearer"
    ensures |Split(h)| > 1 ==> IsFirstSegment(Split(h)[1], h[7..])
  {
    SplitFirst(h);
    if |Split(h)| > 1 {
      SplitFirst(h[7..]);
      assert Split(h)[1] == Split(h)[1..][0];
    }
  }

  /** Headers without the exact `Bearer` scheme give `null`. */
  lemma RejectedSchemes()
    ensures GetAuthToken(None).authToken == Null
    ensures GetAuthToken(Some("")).authToken == Null
    ensures GetAuthToken(Some("bearer x")).authToken == Null
    ensures GetAuthToken(Some("Basic x")).authToken == Null
  {
  }

  /** `Bearer` with no space gives `undefined`, which is not `null`. */
  lemma BareSchemeIsUndefined()
    ensures GetAuthToken(Some("Bearer")).authToken == Undefined
  {
  }

  /**
   * `Bearer ` gives the empty token. This is a fact about the middleware's own parsing: an
   * HTTP server strips trailing whitespace from header values (section 3.2.4 of RFC 7230),
   * so a header sent as `Bearer ` usually arrives as `Bearer` and gives `undefined`.
   */
  lemma TrailingSpaceGivesEmptyToken()
    ensures GetAuthToken(Some("Bearer ")).authToken == Token("")
  {
  }

  /** Only the second segment is taken: `Bearer a b` gives `a`. */
  lemma OnlySecondSegment()
    ensures GetAuthToken(Some("Bearer a b")).authToken == Token("a")
  {
  }
}
