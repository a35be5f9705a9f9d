/** The level normalisation of the Express server's `/guid` handler: the
    miyoushe "level full info" document (`retcode`, `message`,
    `data.resp_map`) turned into a level record. */
module FullInfo {
  import opened Wrappers
  import opened JsValue
  import opened JsNumber
  import opened Level
  import opened Http

  /** `respMap?.level_detail?.data?.level_detail_response?.level_info`: the
      chain gives undefined as soon as a link is not an object. */
  function LevelInfo(respMap: Json): (r: Json)
    ensures !respMap.Obj? ==> r == Undefined
  {
    Prop(Prop(Prop(Prop(respMap, "level_detail"), "data"), "level_detail_response"), "level_info")
  }

  /** `respMap?.developer_info?.data?.developer_news_response`. */
  function DeveloperInfo(respMap: Json): (r: Json)
    ensures !respMap.Obj? ==> r == Undefined
  {
    Prop(Prop(Prop(respMap, "developer_info"), "data"), "developer_news_response")
  }

  /** `parseInt(x) || 999`: NaN and zero both become 999. */
  function SortBound(x: Json): (r: Number)
    ensures r.Finite? && r.value != 0
    ensures NumberTruthy(ParseIntOf(x)) ==> r == ParseIntOf(x)
    ensures !NumberTruthy(ParseIntOf(x)) ==> r == Finite(Unbounded)
  {
    var n := ParseIntOf(x);
    if NumberTruthy(n) then n else Finite(Unbounded)
  }

  /** The cover: the first truthy one of `cover_img?.url`, `images[0].url`
      (looked at only when `images` is non-empty) and
      `video_info?.video_cover`, else "". Reading `url` of a null or
      undefined first image is a TypeError. */
  function Cover(levelInfo: Json): (r: Result<Json, JsError>)
    ensures r.Err? <==>
      && !Truthy(Prop(Prop(levelInfo, "cover_img"), "url"))
      && Truthy(Prop(levelInfo, "images")) && HasElements(Prop(levelInfo, "images"))
      && Nullish(Index(Prop(levelInfo, "images"), 0))
    ensures r.Err? ==> r.error == TypeError
    ensures r.Ok? ==> !Truthy(r.value) ==> r.value == Str("")
    ensures r.Ok? && Truthy(Prop(Prop(levelInfo, "cover_img"), "url")) ==> r.value == Prop(Prop(levelInfo, "cover_img"), "url")
    ensures r.Ok? && Truthy(r.value) ==>
      || r.value == Prop(Prop(levelInfo, "cover_img"), "url")
      || r.value == Prop(Index(Prop(levelInfo, "images"), 0), "url")
      || r.value == Prop(Prop(levelInfo, "video_info"), "video_cover")
    ensures var images := Prop(levelInfo, "images");
      !Truthy(Prop(Prop(levelInfo, "cover_img"), "url")) && Truthy(images) && HasElements(images)
      && Truthy(Prop(Index(images, 0), "url"))
      ==> r == Ok(Prop(Index(images, 0), "url"))
    ensures var images := Prop(levelInfo, "images");
      var videoCover := Prop(Prop(levelInfo, "video_info"), "video_cover");
      !Truthy(Prop(Prop(levelInfo, "cover_img"), "url"))
      && (!Truthy(images) || !HasElements(images) || !Truthy(Prop(Index(images, 0), "url")))
      && r.Ok?
      ==> r.value == (if Truthy(videoCover) then videoCover else Str(""))
  {
    var first := Prop(Prop(levelInfo, "cover_img"), "url");
    var images := Prop(levelInfo, "images");
    var second :=
      if !Truthy(first) && Truthy(images) && HasElements(images) then
        Get(Index(images, 0), "url")
      else Ok(first);
    match second
    case Err(e) => Err(e)
    case Ok(url) =>
      var videoCover := Prop(Prop(levelInfo, "video_info"), "video_cover");
      var third := if !Truthy(url) && Truthy(videoCover) then videoCover else url;
      Ok(Or(third, Str("")))
  }

  /** The record for `level_info` and `developer_news_response` that passed
      the structure check; `id` is the query's `id`, echoed as it is. */
  function Normalize(id: Json, levelInfo: Json, developerInfo: Json): (r: Result<Record, JsError>)
    requires Truthy(levelInfo) && Truthy(developerInfo)
    ensures r.Err? <==> Cover(levelInfo).Err? || Nullish(Prop(developerInfo, "developer"))
    ensures r.Err? ==> r.error == TypeError
    ensures r.Ok? ==> Filled(r.value) && r.value.levelId == id
    ensures r.Ok? ==> r.value.sortMin.Finite? && r.value.sortMin.value != 0
    ensures r.Ok? ==> r.value.sortMax.Finite? && r.value.sortMax.value != 0
    ensures r.Ok? ==> (r.value.category == Str(LongTerm) <==> Prop(levelInfo, "play_cate") == Str(LongTermCategory))
    ensures r.Ok? ==> r.value.category in {Str(LongTerm), Str(Casual)}
    ensures r.Ok? ==> r.value.coverUrl == Cover(levelInfo).value
    ensures r.Ok? ==>
      && r.value.sortMin == SortBound(Prop(levelInfo, "limit_play_num_min"))
      && r.value.sortMax == SortBound(Prop(levelInfo, "limit_play_num_max"))
    ensures r.Ok? ==> var developer := Prop(developerInfo, "developer");
      && Defaults(r.value.authorName, Prop(developer, "game_nickname"), UnknownAuthor)
      && Defaults(r.value.authorAvatar, Prop(developer, "game_avatar"), "")
      && Defaults(r.value.levelName, Prop(levelInfo, "level_name"), UnknownLevel)
      && Defaults(r.value.levelType, Prop(levelInfo, "play_type"), Unknown)
      && Defaults(r.value.playersStr, Prop(levelInfo, "show_limit_play_num_str"), NoPlayerCount)
      && Defaults(r.value.hotScore, Prop(levelInfo, "hot_score"), NoHotScore)
      && Defaults(r.value.goodRate, Prop(levelInfo, "good_rate"), NoGoodRate)
  {
    match Cover(levelInfo)
    case Err(e) => Err(e)
    case Ok(coverUrl) =>
      match Get(Prop(developerInfo, "developer"), "game_nickname")
      case Err(e) => Err(e)
      case Ok(nickname) => Ok(Build(id, levelInfo, Prop(developerInfo, "developer"), nickname, coverUrl))
  }

  /** The record literal of the handler, once the cover and
      `developer.game_nickname` have been read. */
  function Build(id: Json, levelInfo: Json, developer: Json, nickname: Json, coverUrl: Json): (r: Record)
    ensures Filled(r) && r.levelId == id && r.coverUrl == coverUrl
    ensures r.sortMin == SortBound(Prop(levelInfo, "limit_play_num_min"))
    ensures r.sortMax == SortBound(Prop(levelInfo, "limit_play_num_max"))
    ensures r.category == Str(LongTerm) <==> Prop(levelInfo, "play_cate") == Str(LongTermCategory)
    ensures r.category in {Str(LongTerm), Str(Casual)}
    ensures Defaults(r.authorName, nickname, UnknownAuthor)
    ensures Defaults(r.authorAvatar, Prop(developer, "game_avatar"), "")
    ensures Defaults(r.levelName, Prop(levelInfo, "level_name"), UnknownLevel)
    ensures Defaults(r.levelType, Prop(levelInfo, "play_type"), Unknown)
    ensures Defaults(r.playersStr, Prop(levelInfo, "show_limit_play_num_str"), NoPlayerCount)
    ensures Defaults(r.hotScore, Prop(levelInfo, "hot_score"), NoHotScore)
    ensures Defaults(r.goodRate, Prop(levelInfo, "good_rate"), NoGoodRate)
  {
    var category := if Prop(levelInfo, "play_cate") == Str(LongTermCategory) then Str(LongTerm) else Str(Casual);
    var r := Record(
      authorName := Or(nickname, Str(UnknownAuthor)),
      authorAvatar := Or(Prop(developer, "game_avatar"), Str("")),
      levelName := Or(Prop(levelInfo, "level_name"), Str(UnknownLevel)),
      levelId := id,
      levelType := Or(Prop(levelInfo, "play_type"), Str(Unknown)),
      category := category,
      playersStr := Or(Prop(levelInfo, "show_limit_play_num_str"), Str(NoPlayerCount)),
      hotScore := Or(Prop(levelInfo, "hot_score"), Str(NoHotScore)),
      goodRate := Or(Prop(levelInfo, "good_rate"), Str(NoGoodRate)),
      sortMin := SortBound(Prop(levelInfo, "limit_play_num_min")),
      sortMax := SortBound(Prop(levelInfo, "limit_play_num_max")),
      coverUrl := coverUrl);
    assert Truthy(r.category);
    assert Truthy(r.authorName) && Truthy(r.levelName) && Truthy(r.levelType);
    assert Truthy(r.playersStr) && Truthy(r.hotScore) && Truthy(r.goodRate);
    r
  }

  datatype Verdict = Verdict(status: int, body: Body)

  const InternalError := "服务器内部错误或请求超时"
  const BadStructure := "数据结构异常"
  const ApiErrorPrefix := "API Error: "

  /** What the handler sends once the service has answered (or not). A body
      that did not parse as JSON stays a string, as axios leaves it. */
  function Outcome(id: Json, upstream: Upstream): (r: Verdict)
    ensures r.status in {200, 404, 500}
    ensures r.status == 200 <==> r.body.Success?
    ensures r.status == 200 ==> Filled(r.body.data) && r.body.data.levelId == id
    ensures r.status != 200 ==> r.body.ErrorJson?
    ensures r.status == 500 ==> r.body.error == InternalError
    ensures upstream.Unreachable? || !IsOk(upstream.status) ==> r == Verdict(500, ErrorJson(InternalError))
    ensures upstream.Answered? && IsOk(upstream.status) && upstream.payload.Parsed? && upstream.payload.doc.Null?
      ==> r.status == 500
    ensures upstream.Answered? && IsOk(upstream.status) && !Nullish(Document(upstream.payload))
      && Prop(Document(upstream.payload), "retcode") != Num(0)
      ==> r == Verdict(404, ErrorJson(ApiErrorPrefix + ToString(Prop(Document(upstream.payload), "message"))))
    ensures Passed(upstream) ==>
      var levelInfo := LevelInfo(RespMap(Document(upstream.payload)));
      var developerInfo := DeveloperInfo(RespMap(Document(upstream.payload)));
      && (!Truthy(levelInfo) || !Truthy(developerInfo) ==> r == Verdict(404, ErrorJson(BadStructure)))
      && (Truthy(levelInfo) && Truthy(developerInfo) ==>
            var normalized := Normalize(id, levelInfo, developerInfo);
            && (normalized.Err? ==> r == Verdict(500, ErrorJson(InternalError)))
            && (normalized.Ok? ==> r == Verdict(200, Success(normalized.value))))
  {
    match upstream
    case Unreachable(_) => Verdict(500, ErrorJson(InternalError))
    case Answered(status, payload) =>
      if !IsOk(status) then Verdict(500, ErrorJson(InternalError))
      else
        var doc := Document(payload);
        if Nullish(doc) then Verdict(500, ErrorJson(InternalError))
        else if Prop(doc, "retcode") != Num(0) then
          Verdict(404, ErrorJson(ApiErrorPrefix + ToString(Prop(doc, "message"))))
        else
          var respMap := RespMap(doc);
          var levelInfo := LevelInfo(respMap);
          var developerInfo := DeveloperInfo(respMap);
          if !Truthy(levelInfo) || !Truthy(developerInfo) then Verdict(404, ErrorJson(BadStructure))
          else
            match Normalize(id, levelInfo, developerInfo)
            case Err(_) => Verdict(500, ErrorJson(InternalError))
            case Ok(record) => Verdict(200, Success(record))
  }

  /** The service answered with 2xx and a document whose `retcode` is 0. */
  predicate Passed(upstream: Upstream) {
    upstream.Answered? && IsOk(upstream.status) && !Nullish(Document(upstream.payload))
    && Prop(Document(upstream.payload), "retcode") == Num(0)
  }

  /** `data?.resp_map` of the document. */
  function RespMap(doc: Json): Json {
    Prop(Prop(doc, "data"), "resp_map")
  }

  /** `response.data`: parsed JSON, or the text itself when it did not parse;
      text has no `retcode`. */
  function Document(payload: Payload): (r: Json)
    ensures payload.Unparsable? ==> r.Str? && Prop(r, "retcode") == Undefined
  {
    match payload
    case Parsed(doc) => doc
    case Unparsable(text) => Str(text)
  }

  /** A number other than zero is its own bound; zero, a missing value and
      text without digits all become 999. */
  lemma SortBoundOfNumber(n: int)
    ensures SortBound(Num(n)) == if n == 0 then Finite(Unbounded) else Finite(n)
  {
    ParseIntOfNumber(n);
  }

  lemma SortBoundMissing()
    ensures SortBound(Undefined) == Finite(Unbounded)
    ensures SortBound(Null) == Finite(Unbounded)
  {
    ParseIntOfUndefined();
    ParseIntOfNull();
  }

  /** With no cover image and no usable first image, the video cover is the
      cover. */
  lemma VideoCoverOnly(videoCover: Json)
    requires Truthy(videoCover)
    ensures Cover(Obj(map["video_info" := Obj(map["video_cover" := videoCover])])) == Ok(videoCover)
    ensures Cover(Obj(map["images" := Arr([]), "video_info" := Obj(map["video_cover" := videoCover])])) == Ok(videoCover)
  {
    var video := Obj(map["video_cover" := videoCover]);
    var bare := Obj(map["video_info" := video]);
    assert Prop(bare, "cover_img") == Undefined && Prop(bare, "images") == Undefined;
    assert Prop(bare, "video_info") == video;
    var empty := Obj(map["images" := Arr([]), "video_info" := video]);
    assert Prop(empty, "cover_img") == Undefined && Prop(empty, "images") == Arr([]);
    assert Prop(empty, "video_info") == video;
    assert Prop(Arr([]), "length") == Num(0);
  }

  /** A level whose developer record lacks `developer` passes the structure
      check and then fails with a TypeError, reported as a 500. */
  lemma MissingDeveloper(id: Json, upstream: Upstream)
    requires Passed(upstream)
    requires var respMap := RespMap(Document(upstream.payload));
      Truthy(LevelInfo(respMap)) && Truthy(DeveloperInfo(respMap))
      && Nullish(Prop(DeveloperInfo(respMap), "developer"))
    ensures Outcome(id, upstream) == Verdict(500, ErrorJson(InternalError))
  {
  }

  /** A body that is not JSON is a string with no `retcode`: reported as a
      business error with message "undefined". */
  lemma UnparsableBody(id: Json, status: int, text: string)
    requires IsOk(status)
    ensures Outcome(id, Answered(status, Unparsable(text))) == Verdict(404, ErrorJson("API Error: undefined"))
  {
    assert Prop(Str(text), "message") == Undefined;
  }

  /** Reading `url` of an empty first image throws, whatever `video_info` holds. */
  lemma NullFirstImageThrows(videoInfo: Json)
    ensures Cover(Obj(map["images" := Arr([Null]), "video_info" := videoInfo])) == Err(TypeError)
  {
    var levelInfo := Obj(map["images" := Arr([Null]), "video_info" := videoInfo]);
    assert Prop(levelInfo, "cover_img") == Undefined;
    assert Prop(levelInfo, "images") == Arr([Null]);
  }

  /** The business status is checked first: a failure without a message
      reports "undefined". */
  lemma RetcodeWithoutMessage(id: Json)
    ensures Outcome(id, Answered(200, Parsed(Obj(map["retcode" := Num(-1)]))))
      == Verdict(404, ErrorJson("API Error: undefined"))
  {
    var doc := Obj(map["retcode" := Num(-1)]);
    assert Prop(doc, "retcode") == Num(-1);
    assert Prop(doc, "message") == Undefined;
  }
}
