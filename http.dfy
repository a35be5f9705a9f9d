/** What the handlers send and what they get back from the services they
    call. A response body is kept as the value it was built from; the JSON
    text `JSON.stringify` and `res.json` would make of it is not modelled. */
module Http {
  import opened Wrappers
  import opened Bytes
  import opened Level
  import JsString

  datatype Body =
    | Empty
    | Text(text: string)
    | Binary(octets: seq<byte>)
    | ErrorJson(error: string)       // `{ error: ... }`
    | Success(data: Record)          // `{ success: true, data: ... }`

  datatype Response = Response(status: int, headers: map<string, string>, body: Body)

  /** A response body as the client library hands it over: parsed JSON, or
      text that did not parse. */
  datatype Payload = Parsed(doc: JsValue.Json) | Unparsable(text: string)

  /** The outcome of a call to a metadata service: no response at all (a
      transport error or a timeout, with the message of the error), or a
      response with its status. */
  datatype Upstream = Unreachable(message: string) | Answered(status: int, payload: Payload)

  /** The outcome of fetching an image: the Content-Type header is absent or
      has a value, and the body is octets. */
  datatype ImageOrigin =
    | OriginUnreachable(message: string)
    | OriginAnswered(status: int, contentType: Option<string>, octets: seq<byte>)

  /** `response.ok` in fetch, and axios's default status check. */
  predicate IsOk(status: int) {
    200 <= status <= 299
  }

  const AllowOrigin := "Access-Control-Allow-Origin"
  const AllowMethods := "Access-Control-Allow-Methods"
  const AllowHeaders := "Access-Control-Allow-Headers"
  const CacheControl := "Cache-Control"
  const Pragma := "Pragma"
  const Expires := "Expires"
  const ContentType := "Content-Type"

  const Cors: map<string, string> :=
    map[AllowOrigin := "*", AllowMethods := "GET, POST, OPTIONS", AllowHeaders := "Content-Type"]

  const NoStore := "no-store, no-cache, must-revalidate, proxy-revalidate"
  const Immutable := "public, max-age=31104000, immutable"
  /** The parameter Express appends to textual types. */
  const Utf8Parameter := "; charset=utf-8"
  const JsonMediaType := "application/json"
  const JsonType := JsonMediaType + Utf8Parameter

  /** The three headers both deployments use to forbid caching of `/guid`. */
  const NoCache: map<string, string> := map[CacheControl := NoStore, Pragma := "no-cache", Expires := "0"]

  /** A response together with the URL the handler asked a service for, if any. */
  datatype Exchange = Exchange(requested: Option<string>, response: Response)

  const MissingId := "缺少 ID"
  const NoUrl := "No URL provided"

  /** The fake extension a reference may carry. */
  const Suffix := ".png"

  /** The reference without one trailing ".png". */
  function StripSuffix(s: string): (r: string)
    ensures JsString.EndsWith(s, Suffix) ==> r + Suffix == s
    ensures !JsString.EndsWith(s, Suffix) ==> r == s
  {
    if JsString.EndsWith(s, Suffix) then s[..|s| - |Suffix|] else s
  }

  /** Only an empty reference, with or without the suffix, is empty once stripped. */
  lemma StripSuffixEmpty(s: string)
    ensures StripSuffix(s) == "" <==> s == "" || s == Suffix
  {
    if JsString.EndsWith(s, Suffix) {
      assert StripSuffix(s) + Suffix == s;
    }
  }
}
