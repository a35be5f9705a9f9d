/** The two request handlers of the Express server. The response object is
    a `Reply` whose status, headers and body the handlers change step by
    step, as Express's `res.set`, `res.status`, `res.send` and `res.json` do
    (Express 4). */
module Server {
  import opened Wrappers
  import opened Bytes
  import opened JsValue
  import opened JsString
  import opened JsNumber
  import opened Http
  import Base64
  import Utf8
  import Uri
  import FullInfo

  const HtmlMediaType := "text/html"
  const HtmlType := HtmlMediaType + Utf8Parameter
  const OctetType := "application/octet-stream"
  const ImageError := "Image error"

  /** The first index from `j` on that is not white space (`\s`). */
  function SkipSpace(s: string, j: nat): (k: nat)
    requires j <= |s|
    ensures j <= k <= |s| && (k < |s| ==> !IsStrWhiteSpace(s[k]))
    decreases |s| - j
  {
    if j < |s| && IsStrWhiteSpace(s[j]) then SkipSpace(s, j + 1) else j
  }

  /** `\s*charset\s*=` matches at `j`. */
  predicate CharsetAt(s: string, j: nat)
    requires j <= |s|
  {
    var k := SkipSpace(s, j);
    k + 7 <= |s| && s[k..k + 7] == "charset" && SkipSpace(s, k + 7) < |s| && s[SkipSpace(s, k + 7)] == '='
  }

  /** The value already names a charset (`/;\s*charset\s*=/`). */
  predicate HasCharset(value: string) {
    exists i :: 0 <= i < |value| && value[i] == ';' && CharsetAt(value, i + 1)
  }

  /** The types the mime table gives the UTF-8 charset. */
  predicate IsTextual(mediaType: string) {
    StartsWith(mediaType, "text/") || StartsWith(mediaType, "application/javascript")
    || StartsWith(mediaType, "application/json")
  }

  /** The value `res.set('Content-Type', value)` stores: a textual type
      without a charset gets "; charset=utf-8" appended. */
  function ContentTypeValue(value: string): (r: string)
    ensures r == value || r == value + Utf8Parameter
    ensures HasCharset(value) ==> r == value
  {
    if !HasCharset(value) && IsTextual(Split(value, ';')[0]) then value + Utf8Parameter else value
  }

  /** The state of an Express response object. */
  class Reply {
    var statusCode: int
    var headers: map<string, string>
    var body: Body

    /** A response not yet touched by a handler. */
    predicate Unsent()
      reads this
    {
      statusCode == 200 && headers == map[] && body == Empty
    }

    /** The response that was sent is `r`. */
    predicate Holds(r: Response)
      reads this
    {
      statusCode == r.status && headers == r.headers && body == r.body
    }

    constructor()
      ensures Unsent()
    {
      statusCode := 200;
      headers := map[];
      body := Empty;
    }

    /** `res.set(field, value)`. */
    method Set(field: string, value: string)
      modifies this
      ensures headers == old(headers)[field := if field == ContentType then ContentTypeValue(value) else value]
      ensures statusCode == old(statusCode) && body == old(body)
    {
      headers := headers[field := if field == ContentType then ContentTypeValue(value) else value];
    }

    /** `res.status(code)`. */
    method Status(code: int)
      modifies this
      ensures statusCode == code && headers == old(headers) && body == old(body)
    {
      statusCode := code;
    }

    /** `res.send(text)`: HTML unless a type was set. */
    method Send(text: string)
      modifies this
      ensures headers == if ContentType in old(headers) then old(headers) else old(headers)[ContentType := HtmlType]
      ensures body == Text(text) && statusCode == old(statusCode)
    {
      if ContentType !in headers {
        headers := headers[ContentType := HtmlType];
      }
      body := Text(text);
    }

    /** `res.send(buffer)`: octet-stream unless a type was set. */
    method SendOctets(octets: seq<byte>)
      modifies this
      ensures headers == if ContentType in old(headers) then old(headers) else old(headers)[ContentType := OctetType]
      ensures body == Binary(octets) && statusCode == old(statusCode)
    {
      if ContentType !in headers {
        headers := headers[ContentType := OctetType];
      }
      body := Binary(octets);
    }

    /** `res.json(value)`: JSON unless a type was set. */
    method Json(value: Body)
      modifies this
      ensures headers == if ContentType in old(headers) then old(headers) else old(headers)[ContentType := JsonType]
      ensures body == value && statusCode == old(statusCode)
    {
      if ContentType !in headers {
        headers := headers[ContentType := JsonType];
      }
      body := value;
    }
  }

  /** What `/proxy-image/:base64Url` sends and fetches. `param` is the route
      parameter, `bufferText` the octets of `Buffer.from(text, 'base64')`
      read back as UTF-8, `origin` the image host's answer to a GET. */
  function ProxyImageReply(param: string, bufferText: string -> string, origin: string -> ImageOrigin): (r: Exchange)
    ensures r.response.status in {200, 400, 404}
    ensures r.response.status == 400 <==> param == "" || param == Suffix
    ensures r.response.status != 200 ==> r.requested.None? || !origin(r.requested.value).OriginAnswered? || !IsOk(origin(r.requested.value).status)
    ensures r.response.status == 400 ==> r.requested.None? && r.response == Response(400, map[ContentType := HtmlType], Text(NoUrl))
    ensures r.response.status == 404 ==> r.response == Response(404, map[ContentType := HtmlType], Text(ImageError))
    ensures r.response.status == 200 ==>
      && r.requested.Some?
      && origin(r.requested.value).OriginAnswered?
      && IsOk(origin(r.requested.value).status)
      && r.response.body == Binary(origin(r.requested.value).octets)
      && r.response.headers == map[CacheControl := Immutable,
           ContentType := ContentTypeValue(origin(r.requested.value).contentType.GetOr("undefined"))]
    ensures var reference := StripSuffix(param);
      reference != "" ==>
        && (Uri.DecodeComponent(reference).None? ==> r.requested.None? && r.response.status == 404)
        && (Uri.DecodeComponent(reference).Some? ==>
              r.requested == Some(bufferText(Uri.DecodeComponent(reference).value)))
    ensures r.response.status == 200 <==>
      r.requested.Some? && origin(r.requested.value).OriginAnswered? && IsOk(origin(r.requested.value).status)
  {
    var reference := StripSuffix(param);
    StripSuffixEmpty(param);
    if reference == "" then Exchange(None, Response(400, map[ContentType := HtmlType], Text(NoUrl)))
    else
      match Uri.DecodeComponent(reference)
      case None => Exchange(None, Response(404, map[ContentType := HtmlType], Text(ImageError)))
      case Some(decoded) =>
        var url := bufferText(decoded);
        var response :=
          match origin(url)
          case OriginAnswered(status, contentType, octets) =>
            if IsOk(status) then
              Response(200, map[CacheControl := Immutable, ContentType := ContentTypeValue(contentType.GetOr("undefined"))], Binary(octets))
            else Response(404, map[ContentType := HtmlType], Text(ImageError))
          case OriginUnreachable(_) => Response(404, map[ContentType := HtmlType], Text(ImageError));
        Exchange(Some(url), response)
  }

  /** The handler itself, on a fresh response object; it returns the URL it
      fetched, if any. */
  method ProxyImage(res: Reply, param: string, bufferText: string -> string, origin: string -> ImageOrigin)
    returns (requested: Option<string>)
    requires res.Unsent()
    modifies res
    ensures requested == ProxyImageReply(param, bufferText, origin).requested
    ensures res.Holds(ProxyImageReply(param, bufferText, origin).response)
  {
    var reference := param;
    if EndsWith(reference, Suffix) {
      reference := reference[..|reference| - |Suffix|];
    }
    if reference == "" {
      res.Status(400);
      res.Send(NoUrl);
      return None;
    }
    var decoded := Uri.DecodeComponent(reference);
    if decoded.None? {
      res.Status(404);
      res.Send(ImageError);
      return None;
    }
    var url := bufferText(decoded.value);
    requested := Some(url);
    var answer := origin(url);
    if answer.OriginUnreachable? || !IsOk(answer.status) {
      res.Status(404);
      res.Send(ImageError);
      return;
    }
    res.Set(CacheControl, Immutable);
    res.Set(ContentType, answer.contentType.GetOr("undefined"));
    res.SendOctets(answer.octets);
  }

  /** The JSON body POSTed to the level service for `id`. */
  function RequestBody(id: Json): (r: Json)
    ensures Prop(r, "level_id") == id
  {
    Obj(map[
      "region" := Str("cn_gf01"),
      "level_id" := id,
      "agg_req_list" := Arr([
        Obj(map["api_name" := Str("level_detail")]),
        Obj(map["api_name" := Str("developer_info")]),
        Obj(map["api_name" := Str("config")])])])
  }

  /** The headers of every `/guid` response. */
  const GuidHeaders: map<string, string> := NoCache[ContentType := JsonType]

  /** What `/guid` sends; `id` is `req.query.id`, `api` the level
      service's answer to a POST of a body. */
  function GuidReply(id: Json, api: Json -> Upstream): (r: Response)
    ensures r.headers == GuidHeaders
    ensures r.status in {200, 400, 404, 500}
    ensures r.status == 400 <==> !Truthy(id)
    ensures r.status == 400 ==> r.body == ErrorJson(MissingId)
    ensures r.status == 200 <==> r.body.Success?
    ensures r.body.Success? ==> Level.Filled(r.body.data) && r.body.data.levelId == id
    ensures Truthy(id) ==>
      var verdict := FullInfo.Outcome(id, api(RequestBody(id)));
      r.status == verdict.status && r.body == verdict.body
  {
    if !Truthy(id) then Response(400, GuidHeaders, ErrorJson(MissingId))
    else
      var verdict := FullInfo.Outcome(id, api(RequestBody(id)));
      Response(verdict.status, GuidHeaders, verdict.body)
  }

  /** The handler itself, on a fresh response object; it returns the body it
      POSTed, if any. */
  method Guid(res: Reply, id: Json, api: Json -> Upstream) returns (posted: Option<Json>)
    requires res.Unsent()
    modifies res
    ensures posted == if Truthy(id) then Some(RequestBody(id)) else None
    ensures res.Holds(GuidReply(id, api))
  {
    res.Set(CacheControl, NoStore);
    res.Set(Pragma, "no-cache");
    res.Set(Expires, "0");
    assert res.headers == NoCache;
    assert ContentType !in res.headers;
    if !Truthy(id) {
      res.Status(400);
      res.Json(ErrorJson(MissingId));
      return None;
    }
    posted := Some(RequestBody(id));
    var verdict := FullInfo.Outcome(id, api(posted.value));
    assert GuidReply(id, api) == Response(verdict.status, GuidHeaders, verdict.body);
    if verdict.status != 200 {
      res.Status(verdict.status);
    }
    res.Json(verdict.body);
  }

  /** A value without ';' names no charset and is its own media type. */
  lemma PlainType(value: string)
    requires ';' !in value
    ensures !HasCharset(value) && Split(value, ';')[0] == value
  {
    SplitNone(value, ';');
  }

  /** A textual type without parameters gets the UTF-8 charset. */
  lemma TextualType(value: string)
    requires ';' !in value && IsTextual(value)
    ensures ContentTypeValue(value) == value + Utf8Parameter
  {
    PlainType(value);
  }

  /** Any other type without parameters is stored as it is. */
  lemma OtherType(value: string)
    requires ';' !in value && !IsTextual(value)
    ensures ContentTypeValue(value) == value
  {
    PlainType(value);
  }

  /** `res.json` ends up with the UTF-8 JSON type. */
  lemma JsonContentType()
    ensures ContentTypeValue(JsonMediaType) == JsonType
  {
    assert ';' !in JsonMediaType;
    assert IsTextual(JsonMediaType);
    TextualType(JsonMediaType);
  }

  /** `res.send` of text ends up with the UTF-8 HTML type. */
  lemma HtmlContentType()
    ensures ContentTypeValue(HtmlMediaType) == HtmlType
  {
    assert ';' !in HtmlMediaType;
    assert IsTextual(HtmlMediaType);
    TextualType(HtmlMediaType);
  }

  /** An image type is stored as it is. */
  lemma ImageContentType()
    ensures ContentTypeValue("image/png") == "image/png"
  {
    var t := "image/png";
    assert t[0] == 'i';
    assert !StartsWith(t, "text/") && !StartsWith(t, "application/javascript") && !StartsWith(t, "application/json") by {
      assert t[..5][0] == 'i';
    }
    OtherType(t);
  }

  /** An absent upstream Content-Type is stored as the text "undefined". */
  lemma AbsentContentType()
    ensures ContentTypeValue(None.GetOr("undefined")) == "undefined"
  {
    var t := "undefined";
    assert t[0] == 'u';
    assert ';' !in t;
    assert !IsTextual(t) by {
      assert t[..5][0] == 'u';
    }
    OtherType(t);
  }

  /** Node's decoding agrees with strict decoding on canonical base 64 of
      well-formed UTF-8 (it only differs on other input). */
  ghost predicate BufferDecodes(bufferText: string -> string) {
    forall octets: seq<byte> :: Utf8.Decode(octets).Some? ==> bufferText(Base64.Encode(octets)) == Utf8.Decode(octets).value
  }

  /** The parameter a client's reference arrives as (Express has already
      percent-decoded the path): the base 64 of the URL's UTF-8 octets. */
  function Reference(url: string): (param: string)
    ensures |param| >= |url|
  {
    Base64.Encode(Utf8.Encode(url))
  }

  /** Base 64 text has no '%', so percent-decoding leaves it unchanged, and no '.'. */
  lemma Base64Text(octets: seq<byte>)
    ensures Uri.DecodeComponent(Base64.Encode(octets)) == Some(Base64.Encode(octets))
    ensures !EndsWith(Base64.Encode(octets), Suffix)
  {
    var b := Base64.Encode(octets);
    Base64.EncodeLacks(octets, '%');
    Base64.EncodeLacks(octets, '.');
    if |b| >= |Suffix| {
      assert b[|b| - |Suffix|] != '.';
    }
  }

  /** With a decoder that is right on canonical input, the handler fetches
      the URL the reference was made from, with or without the suffix. */
  lemma ProxyRoundTrip(url: string, suffix: string, bufferText: string -> string, origin: string -> ImageOrigin)
    requires url != "" && (suffix == "" || suffix == Suffix)
    requires BufferDecodes(bufferText)
    ensures ProxyImageReply(Reference(url) + suffix, bufferText, origin).requested == Some(url)
  {
    var octets := Utf8.Encode(url);
    var param := Reference(url);
    Base64Text(octets);
    if suffix == Suffix {
      assert StripSuffix(param + suffix) + Suffix == param + Suffix;
    } else {
      assert param + suffix == param;
    }
    Utf8.DecodeEncode(url);
  }
}
