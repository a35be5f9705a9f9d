/** The two request handlers of the Cloudflare/ESA worker, as functions from
    the request and the answers of the services it calls to the response it
    returns. Each result also records the URL the worker fetched, if any. */
module Worker {
  import opened Wrappers
  import opened Bytes
  import opened JsValue
  import opened JsString
  import opened Http
  import opened Level
  import Base64
  import Utf8
  import Uri
  import Stage

  const ProxyPrefix := "/proxy-image/"
  const StageEndpoint := "https://octavia.kj415j45.space/api/stage?region=cn_gf01&id="
  const TextType := "text/plain;charset=UTF-8"
  const ImageType := "image/png"
  const ImageErrorPrefix := "Image error: "
  const InvalidStage := "数据结构异常或ID无效"
  const FailurePrefix := "请求超时或源站错误: "

  /** The worker's header set for every `/guid` response. */
  const NoCacheHeaders: map<string, string> := Cors + NoCache[ContentType := JsonType]

  /** `new Response(body, { status, headers })`: the Fetch standard gives a
      text body the type text/plain when the headers name none. */
  function Respond(status: int, headers: map<string, string>, body: Body): (r: Response)
    ensures r.status == status && r.body == body
    ensures ContentType in r.headers <==> ContentType in headers || body.Text?
    ensures forall k :: k in headers ==> k in r.headers && r.headers[k] == headers[k]
    ensures body.Text? && ContentType !in headers ==> r.headers == headers[ContentType := TextType]
    ensures !(body.Text? && ContentType !in headers) ==> r.headers == headers
  {
    if body.Text? && ContentType !in headers then Response(status, headers[ContentType := TextType], body)
    else Response(status, headers, body)
  }

  /** `decodeURIComponent(atob(reference))`. */
  function Decode(reference: string): (r: Result<string, JsError>)
    ensures r.Err? ==> r.error == InvalidCharacter || r.error == UriError
  {
    match Base64.ForgivingDecode(reference)
    case None => Err(InvalidCharacter)
    case Some(octets) =>
      match Uri.DecodeComponent(Latin1(octets))
      case None => Err(UriError)
      case Some(url) => Ok(url)
  }

  function ImageFailure(message: string): (r: Response)
    ensures r.status == 404 && HasCors(r.headers)
    ensures r.body.Text? && StartsWith(r.body.text, ImageErrorPrefix)
  {
    Respond(404, Cors, Text(ImageErrorPrefix + message))
  }

  /** `imageRes.headers.get('content-type') || 'image/png'`. */
  function ImageContentType(contentType: Option<string>): (t: string)
    ensures t != ""
    ensures contentType.Some? && contentType.value != "" ==> t == contentType.value
    ensures contentType.None? || contentType.value == "" ==> t == ImageType
  {
    if contentType.Some? && contentType.value != "" then contentType.value else ImageType
  }

  predicate HasCors(headers: map<string, string>) {
    forall k :: k in Cors ==> k in headers && headers[k] == Cors[k]
  }

  /** GET /proxy-image/<reference>; `path` is the URL's pathname, `origin`
      the answer of the image host to a GET of a URL. */
  function ProxyImage(path: string, origin: string -> ImageOrigin, messages: Messages): (r: Exchange)
    requires StartsWith(path, ProxyPrefix)
    ensures r.response.status in {200, 400, 404}
    ensures HasCors(r.response.headers)
    ensures r.response.status == 400 <==> path == ProxyPrefix || path == ProxyPrefix + Suffix
    ensures r.response.status == 400 ==> r.requested.None? && r.response.body == Text(NoUrl)
    ensures r.response.status == 404 ==> r.response.body.Text? && StartsWith(r.response.body.text, ImageErrorPrefix)
    ensures r.response.status == 200 ==>
      && r.requested.Some?
      && origin(r.requested.value).OriginAnswered?
      && IsOk(origin(r.requested.value).status)
      && r.response.body == Binary(origin(r.requested.value).octets)
      && CacheControl in r.response.headers && ContentType in r.response.headers
      && r.response.headers[CacheControl] == Immutable
      && r.response.headers[ContentType] == ImageContentType(origin(r.requested.value).contentType)
    ensures var reference := StripSuffix(RemoveFirst(path, ProxyPrefix));
      reference != "" ==>
        && (Decode(reference).Err? ==>
              r.requested.None? && r.response == ImageFailure(MessageOf(Decode(reference).error, messages)))
        && (Decode(reference).Ok? ==>
              r.requested == Some(Decode(reference).value) && r.response == Image(origin(Decode(reference).value)))
    ensures r.response.status == 200 <==>
      r.requested.Some? && origin(r.requested.value).OriginAnswered? && IsOk(origin(r.requested.value).status)
  {
    var reference := StripSuffix(RemoveFirst(path, ProxyPrefix));
    EmptyReference(path);
    if reference == "" then Exchange(None, Respond(400, Cors, Text(NoUrl)))
    else
      match Decode(reference)
      case Err(e) => Exchange(None, ImageFailure(MessageOf(e, messages)))
      case Ok(url) => Exchange(Some(url), Image(origin(url)))
  }

  /** Only a path that is the prefix, with or without the suffix, carries no reference. */
  lemma EmptyReference(path: string)
    requires StartsWith(path, ProxyPrefix)
    ensures StripSuffix(RemoveFirst(path, ProxyPrefix)) == "" <==> path == ProxyPrefix || path == ProxyPrefix + Suffix
  {
    RemoveLeading(path, ProxyPrefix);
    var rest := path[|ProxyPrefix|..];
    assert path == ProxyPrefix + rest;
    StripSuffixEmpty(rest);
  }

  /** The response for the image host's answer. */
  function Image(answer: ImageOrigin): (r: Response)
    ensures r.status in {200, 404} && HasCors(r.headers)
    ensures r.status == 404 ==> r.body.Text? && StartsWith(r.body.text, ImageErrorPrefix)
    ensures r.status == 200 <==> answer.OriginAnswered? && IsOk(answer.status)
    ensures answer.OriginUnreachable? ==> r == ImageFailure(answer.message)
    ensures answer.OriginAnswered? && !IsOk(answer.status) ==>
      r == ImageFailure("Upstream error: " + IntToString(answer.status))
    ensures r.status == 200 ==>
      && r.body == Binary(answer.octets)
      && CacheControl in r.headers && ContentType in r.headers
      && r.headers[CacheControl] == Immutable
      && r.headers[ContentType] == ImageContentType(answer.contentType)
  {
    match answer
    case OriginUnreachable(message) => ImageFailure(message)
    case OriginAnswered(status, contentType, octets) =>
      if !IsOk(status) then ImageFailure("Upstream error: " + IntToString(status))
      else Response(200, Cors[ContentType := ImageContentType(contentType)][CacheControl := Immutable], Binary(octets))
  }

  /** What every `/guid` response past the id check looks like: the
      no-cache headers; 200 with a filled record whose level id is truthy
      for a non-empty id; 404 with the invalid-stage error; or 500 with an
      error under the failure prefix. */
  predicate GuidShape(id: string, r: Response) {
    && r.headers == NoCacheHeaders
    && r.status in {200, 404, 500}
    && (r.status == 200 <==> r.body.Success?)
    && (r.status == 200 ==> Filled(r.body.data))
    && (r.status == 200 && id != "" ==> Truthy(r.body.data.levelId))
    && (r.status == 404 ==> r.body == ErrorJson(InvalidStage))
    && (r.status == 500 ==> r.body.ErrorJson? && StartsWith(r.body.error, FailurePrefix))
  }

  /** The `/guid` outcome once the stage service has been asked for `id`. */
  function Outcome(id: string, upstream: Upstream, messages: Messages): (r: Response)
    ensures GuidShape(id, r)
    ensures r.status == 404 <==>
      upstream.Answered? && IsOk(upstream.status) && upstream.payload.Parsed? && !Stage.Acceptable(upstream.payload.doc)
    ensures upstream.Unreachable? ==> r.body == ErrorJson(FailurePrefix + upstream.message)
    ensures upstream.Answered? && !IsOk(upstream.status) ==>
      r.body == ErrorJson(FailurePrefix + "Upstream API Error: " + IntToString(upstream.status))
    ensures upstream.Answered? && IsOk(upstream.status) ==> r == Answer(id, upstream.payload, messages)
  {
    match upstream
    case Unreachable(message) => Failure(message)
    case Answered(status, payload) =>
      if !IsOk(status) then Failure("Upstream API Error: " + IntToString(status))
      else Answer(id, payload, messages)
  }

  /** The `/guid` outcome for a 2xx answer: its body is read as JSON, gated
      and normalised. */
  function Answer(id: string, payload: Payload, messages: Messages): (r: Response)
    ensures GuidShape(id, r)
    ensures r.status == 404 <==> payload.Parsed? && !Stage.Acceptable(payload.doc)
    ensures payload.Unparsable? ==> r == Failure(messages.syntaxError)
    ensures payload.Parsed? && Stage.Acceptable(payload.doc) ==>
      var normalized := Stage.Normalize(id, payload.doc);
      && (normalized.Ok? ==> r == Response(200, NoCacheHeaders, Success(normalized.value)))
      && (normalized.Err? ==> r == Failure(MessageOf(normalized.error, messages)))
  {
    match payload
    case Unparsable(_) => Failure(messages.syntaxError)
    case Parsed(raw) =>
      if !Stage.Acceptable(raw) then Response(404, NoCacheHeaders, ErrorJson(InvalidStage))
      else
        match Stage.Normalize(id, raw)
        case Err(e) => Failure(MessageOf(e, messages))
        case Ok(record) => Response(200, NoCacheHeaders, Success(record))
  }

  function Failure(message: string): (r: Response)
    ensures r.status == 500 && r.headers == NoCacheHeaders
    ensures r.body.ErrorJson? && StartsWith(r.body.error, FailurePrefix)
  {
    Response(500, NoCacheHeaders, ErrorJson(FailurePrefix + message))
  }

  /** GET /guid?id=...; `id` is `searchParams.get('id')`, `stage` the
      answer of the stage service to a GET of a URL. */
  function Guid(id: Option<string>, stage: string -> Upstream, messages: Messages): (r: Exchange)
    ensures r.response.headers == NoCacheHeaders
    ensures r.response.status == 400 <==> id.None? || id.value == ""
    ensures r.response.status == 400 <==> r.requested.None?
    ensures r.response.status == 400 ==> r.response.body == ErrorJson(MissingId)
    ensures r.requested.Some? ==> r.requested.value == StageEndpoint + id.value
    ensures r.response.status == 200 <==> r.response.body.Success?
    ensures r.response.body.Success? ==> Filled(r.response.body.data) && Truthy(r.response.body.data.levelId)
    ensures r.requested.Some? ==> id.Some? && r.response == Outcome(id.value, stage(r.requested.value), messages)
  {
    if id.None? || id.value == "" then Exchange(None, Response(400, NoCacheHeaders, ErrorJson(MissingId)))
    else
      var url := StageEndpoint + id.value;
      Exchange(Some(url), Outcome(id.value, stage(url), messages))
  }

  /** The reference a client puts in the path for this handler: the URL
      percent-encoded, then in base 64 (`btoa(encodeURIComponent(url))`). */
  function Reference(url: string): (ref: string)
    ensures |ref| >= |url|
  {
    var escaped := Uri.EncodeComponent(url);
    Utf8.EncodeAscii(escaped);
    Base64.Encode(Latin1Bytes(escaped))
  }

  /** The handler fetches exactly the URL the reference was made from, with
      or without the ".png" suffix. */
  lemma ProxyRoundTrip(url: string, suffix: string, origin: string -> ImageOrigin, messages: Messages)
    requires url != "" && (suffix == "" || suffix == Suffix)
    ensures ProxyImage(ProxyPrefix + Reference(url) + suffix, origin, messages).requested == Some(url)
  {
    var ref := Reference(url);
    ReferenceHasNoSuffix(url);
    PathReference(ref, suffix);
    ReferenceDecodes(url);
  }

  /** What the handler takes from the path is the reference. */
  lemma PathReference(ref: string, suffix: string)
    requires !EndsWith(ref, Suffix) && (suffix == "" || suffix == Suffix)
    ensures StartsWith(ProxyPrefix + ref + suffix, ProxyPrefix)
    ensures StripSuffix(RemoveFirst(ProxyPrefix + ref + suffix, ProxyPrefix)) == ref
  {
    var path := ProxyPrefix + ref + suffix;
    assert path[..|ProxyPrefix|] == ProxyPrefix;
    RemoveLeading(path, ProxyPrefix);
    assert path[|ProxyPrefix|..] == ref + suffix;
    if suffix == Suffix {
      assert StripSuffix(ref + suffix) + Suffix == ref + Suffix;
    } else {
      assert ref + suffix == ref;
    }
  }

  lemma ReferenceDecodes(url: string)
    ensures Decode(Reference(url)) == Ok(url)
  {
    var escaped := Uri.EncodeComponent(url);
    Utf8.EncodeAscii(escaped);
    var octets := Latin1Bytes(escaped);
    Base64.DecodeEncode(octets);
    Uri.DecodeEncode(url);
  }

  lemma ReferenceHasNoSuffix(url: string)
    ensures !EndsWith(Reference(url), Suffix)
  {
    var ref := Reference(url);
    var escaped := Uri.EncodeComponent(url);
    Utf8.EncodeAscii(escaped);
    Base64.EncodeLacks(Latin1Bytes(escaped), '.');
    if |ref| >= |Suffix| {
      assert ref[|ref| - |Suffix|] != '.';
    }
  }
}
