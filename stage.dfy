/** The level normalisation of the worker's `/guid` handler: the "stage"
    document (`author`, `level.meta`, ...) turned into a level record. */
module Stage {
  import opened Wrappers
  import opened JsValue
  import opened JsString
  import opened JsNumber
  import opened Level

  /** The gate: the document is truthy and has a truthy `author` and `level`;
      only an object with both keys passes. */
  predicate Acceptable(raw: Json)
    ensures Acceptable(raw) ==> raw.Obj? && "author" in raw.fields && "level" in raw.fields
  {
    Truthy(raw) && Truthy(Prop(raw, "author")) && Truthy(Prop(raw, "level"))
  }

  /** `cover.images` when it is truthy and its length is positive. */
  predicate HasImages(coverObj: Json) {
    var images := Prop(coverObj, "images");
    Truthy(images) && HasElements(images)
  }

  /** The cover: the first image whenever there are images, even a falsy
      one; otherwise a truthy `videoCover`; otherwise "". */
  function Cover(meta: Json): (r: Json)
    ensures var coverObj := Or(Prop(meta, "cover"), EmptyObject);
      && (HasImages(coverObj) ==> r == Index(Prop(coverObj, "images"), 0))
      && (!HasImages(coverObj) ==> Truthy(r) == Truthy(Prop(coverObj, "videoCover")))
      && (!HasImages(coverObj) && Truthy(r) ==> r == Prop(coverObj, "videoCover"))
      && (!HasImages(coverObj) && !Truthy(r) ==> r == Str(""))
  {
    var coverObj := Or(Prop(meta, "cover"), EmptyObject);
    if HasImages(coverObj) then Index(Prop(coverObj, "images"), 0)
    else if Truthy(Prop(coverObj, "videoCover")) then Prop(coverObj, "videoCover")
    else Str("")
  }

  datatype Bounds = Bounds(min: Number, max: Number)

  const Unknown: Bounds := Bounds(Finite(Unbounded), Finite(Unbounded))

  /** The player bounds. `playersStr` is `players.str || 'N/A'`. Calling
      `split` on a truthy value that is not a string is a TypeError. */
  function Players(playersData: Json, playersStr: Json): (r: Result<Bounds, JsError>)
    ensures r.Err? <==> Prop(playersData, "min").Undefined? && playersStr != Str(NoPlayerCount) && !playersStr.Str?
    ensures r.Err? ==> r.error == TypeError
    ensures !Prop(playersData, "min").Undefined? ==>
      r == Ok(Bounds(ParseIntOf(Prop(playersData, "min")), ParseIntOf(Prop(playersData, "max"))))
    ensures playersStr == Str(NoPlayerCount) && Prop(playersData, "min").Undefined? ==> r == Ok(Unknown)
    ensures r.Ok? && r.value.min.NaN? ==> !Prop(playersData, "min").Undefined?
  {
    if !Prop(playersData, "min").Undefined? then
      Ok(Bounds(ParseIntOf(Prop(playersData, "min")), ParseIntOf(Prop(playersData, "max"))))
    else if playersStr != Str(NoPlayerCount) then
      match playersStr
      case Str(s) =>
        var parts := Split(s, '-');
        var first := ParseInt(parts[0]);
        if first.NaN? then Ok(Unknown)
        else Ok(Bounds(first, if |parts| > 1 then ParseInt(parts[1]) else first))
      case _ => Err(TypeError)
    else Ok(Unknown)
  }

  /** `rawData.level.meta || {}`. */
  function Meta(raw: Json): Json {
    Or(Prop(Prop(raw, "level"), "meta"), EmptyObject)
  }

  /** `meta.players || {}`. */
  function PlayersData(raw: Json): Json {
    Or(Prop(Meta(raw), "players"), EmptyObject)
  }

  /** `playersData.str || 'N/A'`. */
  function PlayersText(raw: Json): Json {
    Or(Prop(PlayersData(raw), "str"), Str(NoPlayerCount))
  }

  /** `rawData.author.game || {}`. */
  function Author(raw: Json): Json {
    Or(Prop(Prop(raw, "author"), "game"), EmptyObject)
  }

  /** The record for an accepted document; `id` is the requested id. Only
      reading the player count can throw. */
  function Normalize(id: string, raw: Json): (r: Result<Record, JsError>)
    requires Acceptable(raw)
    ensures r.Ok? <==> Players(PlayersData(raw), PlayersText(raw)).Ok?
    ensures r.Err? ==> r.error == TypeError
    ensures r.Ok? ==> Filled(r.value)
    ensures r.Ok? ==> Defaults(r.value.levelId, Prop(Prop(raw, "level"), "id"), id)
    ensures r.Ok? && id != "" ==> Truthy(r.value.levelId)
    ensures r.Ok? ==>
      var bounds := Players(PlayersData(raw), PlayersText(raw)).value;
      && r.value.sortMin == bounds.min && r.value.sortMax == bounds.max
      && r.value.playersStr == PlayersText(raw)
      && r.value.coverUrl == Cover(Meta(raw))
    ensures r.Ok? ==>
      && Defaults(r.value.authorName, Prop(Author(raw), "name"), UnknownAuthor)
      && Defaults(r.value.authorAvatar, Prop(Author(raw), "avatar"), "")
      && Defaults(r.value.levelName, Prop(Meta(raw), "name"), UnknownLevel)
      && Defaults(r.value.levelType, Prop(Meta(raw), "type"), Level.Unknown)
      && Defaults(r.value.category, Prop(Meta(raw), "category"), Level.Unknown)
      && Defaults(r.value.hotScore, Prop(Meta(raw), "hotScore"), NoHotScore)
      && Defaults(r.value.goodRate, Prop(Meta(raw), "goodRate"), NoGoodRate)
  {
    var meta := Meta(raw);
    var playersData := PlayersData(raw);
    var playersStr := PlayersText(raw);
    match Players(playersData, playersStr)
    case Err(e) => Err(e)
    case Ok(bounds) =>
      var author := Author(raw);
      var levelId := Or(Prop(Prop(raw, "level"), "id"), Str(id));
      assert id != "" ==> Truthy(levelId);
      Ok(Build(meta, author, levelId, playersStr, bounds))
  }

  /** The record literal of the handler, once the player count has been read. */
  function Build(meta: Json, author: Json, levelId: Json, playersStr: Json, bounds: Bounds): (r: Record)
    requires Truthy(playersStr)
    ensures Filled(r) && r.levelId == levelId && r.playersStr == playersStr
    ensures r.coverUrl == Cover(meta) && r.sortMin == bounds.min && r.sortMax == bounds.max
    ensures Defaults(r.authorName, Prop(author, "name"), UnknownAuthor)
    ensures Defaults(r.authorAvatar, Prop(author, "avatar"), "")
    ensures Defaults(r.levelName, Prop(meta, "name"), UnknownLevel)
    ensures Defaults(r.levelType, Prop(meta, "type"), Level.Unknown)
    ensures Defaults(r.category, Prop(meta, "category"), Level.Unknown)
    ensures Defaults(r.hotScore, Prop(meta, "hotScore"), NoHotScore)
    ensures Defaults(r.goodRate, Prop(meta, "goodRate"), NoGoodRate)
  {
    var r := Record(
      authorName := Or(Prop(author, "name"), Str(UnknownAuthor)),
      authorAvatar := Or(Prop(author, "avatar"), Str("")),
      levelName := Or(Prop(meta, "name"), Str(UnknownLevel)),
      levelId := levelId,
      levelType := Or(Prop(meta, "type"), Str(Level.Unknown)),
      category := Or(Prop(meta, "category"), Str(Level.Unknown)),
      playersStr := playersStr,
      hotScore := Or(Prop(meta, "hotScore"), Str(NoHotScore)),
      goodRate := Or(Prop(meta, "goodRate"), Str(NoGoodRate)),
      sortMin := bounds.min,
      sortMax := bounds.max,
      coverUrl := Cover(meta));
    assert Truthy(r.authorName) && Truthy(r.levelName) && Truthy(r.levelType);
    assert Truthy(r.category) && Truthy(r.hotScore) && Truthy(r.goodRate);
    r
  }

  /** A count that splits into two parts is read part by part. */
  lemma PlayersOfTwoParts(playersData: Json, s: string, x: string, y: string)
    requires Prop(playersData, "min").Undefined? && s != NoPlayerCount
    requires Split(s, '-') == [x, y]
    ensures ParseInt(x).NaN? ==> Players(playersData, Str(s)) == Ok(Unknown)
    ensures ParseInt(x).Finite? ==> Players(playersData, Str(s)) == Ok(Bounds(ParseInt(x), ParseInt(y)))
  {
    PlayersOfText(playersData, s);
    assert Split(s, '-')[0] == x && Split(s, '-')[1] == y;
  }

  /** A count that is text is read from its first two dash-separated parts. */
  lemma PlayersOfText(playersData: Json, s: string)
    requires Prop(playersData, "min").Undefined? && s != NoPlayerCount
    ensures var parts := Split(s, '-');
      var first := ParseInt(parts[0]);
      Players(playersData, Str(s)) ==
        if first.NaN? then Ok(Unknown) else Ok(Bounds(first, if |parts| > 1 then ParseInt(parts[1]) else first))
  {
  }

  /** "a-b" with digits only on the left splits at its dash, and is not "N/A". */
  lemma RangeParts(a: nat, y: string)
    requires '-' !in y
    ensures var s := NatToString(a) + "-" + y; Split(s, '-') == [NatToString(a), y] && s != NoPlayerCount
  {
    var x := NatToString(a);
    NoDash(x);
    SplitPair(x, y, '-');
    assert x + "-" + y == x + ['-'] + y;
    assert IsDecimalDigit((x + "-" + y)[0]);
  }

  /** A player count written "a-b", as the stage service writes a range,
      gives the bounds a and b. */
  lemma PlayersRange(playersData: Json, a: nat, b: nat)
    requires Prop(playersData, "min").Undefined?
    ensures Players(playersData, Str(NatToString(a) + "-" + NatToString(b))) == Ok(Bounds(Finite(a), Finite(b)))
  {
    NoDash(NatToString(b));
    RangeParts(a, NatToString(b));
    OfNumeral(a);
    OfNumeral(b);
    PlayersOfTwoParts(playersData, NatToString(a) + "-" + NatToString(b), NatToString(a), NatToString(b));
  }

  /** A single count "n" gives n for both bounds. */
  lemma PlayersSingle(playersData: Json, n: nat)
    requires Prop(playersData, "min").Undefined?
    ensures Players(playersData, Str(NatToString(n))) == Ok(Bounds(Finite(n), Finite(n)))
  {
    var x := NatToString(n);
    NoDash(x);
    assert IsDecimalDigit(x[0]);
    assert x != NoPlayerCount;
    OfNumeral(n);
  }

  /** A count without a dash that cannot start a number, such as "多人",
      leaves the 999 sentinel. */
  lemma PlayersWithoutDigits(playersData: Json, s: string)
    requires Prop(playersData, "min").Undefined?
    requires s != "" && '-' !in s
    requires !IsStrWhiteSpace(s[0]) && s[0] != '+' && !IsDecimalDigit(s[0])
    ensures Players(playersData, Str(s)) == Ok(Unknown)
  {
    if s != NoPlayerCount {
      PlayersOfText(playersData, s);
      SplitNone(s, '-');
      NoLeadingDigit(s);
    }
  }

  /** A range whose upper side is not a number leaks NaN into `sortMax`. */
  lemma PlayersOpenRange(playersData: Json, a: nat, b: string)
    requires Prop(playersData, "min").Undefined?
    requires '-' !in b && ParseInt(b) == NaN
    ensures Players(playersData, Str(NatToString(a) + "-" + b)) == Ok(Bounds(Finite(a), NaN))
  {
    RangeParts(a, b);
    OfNumeral(a);
    PlayersOfTwoParts(playersData, NatToString(a) + "-" + b, NatToString(a), b);
  }

  /** An explicit `min` without a `max` leaks NaN into `sortMax`. */
  lemma PlayersMinWithoutMax()
    ensures Players(Obj(map["min" := Num(2)]), Str(NoPlayerCount)) == Ok(Bounds(Finite(2), NaN))
  {
    var pd := Obj(map["min" := Num(2)]);
    assert Prop(pd, "min") == Num(2);
    assert Prop(pd, "max") == Undefined;
    ParseIntOfNumber(2);
    ParseIntOfUndefined();
  }

  /** A zero lower bound stays zero: this variant has no `|| 999`. */
  lemma PlayersZero()
    ensures Players(EmptyObject, Str("0-4")) == Ok(Bounds(Finite(0), Finite(4)))
  {
    assert Prop(EmptyObject, "min") == Undefined;
    PlayersRange(EmptyObject, 0, 4);
    assert NatToString(0) + "-" + NatToString(4) == "0-4";
  }

  /** A non-string count such as a number makes `split` throw. */
  lemma PlayersNumberThrows()
    ensures Players(EmptyObject, Num(4)) == Err(TypeError)
  {
    assert Prop(EmptyObject, "min") == Undefined;
  }

  /** An empty first image blocks the `videoCover` fallback. */
  lemma FalsyImageBlocksFallback()
    ensures var cover := Obj(map["images" := Arr([Null]), "videoCover" := Str("v.jpg")]);
      Cover(Obj(map["cover" := cover])) == Null
  {
  }

  /** A cover with a video cover and no images, or an empty image list,
      yields the video cover. */
  lemma VideoCoverOnly(videoCover: Json)
    requires Truthy(videoCover)
    ensures Cover(Obj(map["cover" := Obj(map["videoCover" := videoCover])])) == videoCover
    ensures Cover(Obj(map["cover" := Obj(map["images" := Arr([]), "videoCover" := videoCover])])) == videoCover
  {
    var bare := Obj(map["videoCover" := videoCover]);
    assert Prop(bare, "images") == Undefined;
    var empty := Obj(map["images" := Arr([]), "videoCover" := videoCover]);
    assert Prop(empty, "images") == Arr([]);
    assert Prop(Arr([]), "length") == Num(0);
  }

  /** The document of a level "L1" by "X" for two to four players, built
      from its parts. */
  const ExamplePlayers: Json := Obj(map["str" := Str("2-4")])
  const ExampleLevel: Json := Obj(map["id" := Str("L1"), "meta" := Obj(map["players" := ExamplePlayers])])
  const ExampleAuthor: Json := Obj(map["game" := Obj(map["name" := Str("X")])])
  const ExampleStage: Json := Obj(map["author" := ExampleAuthor, "level" := ExampleLevel])

  /** That document normalises to bounds 2 and 4, author "X" and level "L1". */
  lemma ExampleRecord(id: string)
    ensures Acceptable(ExampleStage)
    ensures var r := Normalize(id, ExampleStage);
      && r.Ok? && r.value.sortMin == Finite(2) && r.value.sortMax == Finite(4)
      && r.value.authorName == Str("X") && r.value.levelId == Str("L1")
  {
    ExampleReads();
    ExampleCount();
    NormalizeReads(id, ExampleStage, Bounds(Finite(2), Finite(4)), Str("X"), Str("L1"));
  }

  /** The bounds, author name and level id of the record, from what the
      document holds. */
  lemma NormalizeReads(id: string, raw: Json, bounds: Bounds, name: Json, levelId: Json)
    requires Acceptable(raw) && Players(PlayersData(raw), PlayersText(raw)) == Ok(bounds)
    requires Prop(Author(raw), "name") == name && Truthy(name)
    requires Prop(Prop(raw, "level"), "id") == levelId && Truthy(levelId)
    ensures var r := Normalize(id, raw);
      && r.Ok? && r.value.sortMin == bounds.min && r.value.sortMax == bounds.max
      && r.value.authorName == name && r.value.levelId == levelId
  {
  }

  lemma ExampleReads()
    ensures Acceptable(ExampleStage)
    ensures PlayersData(ExampleStage) == ExamplePlayers && PlayersText(ExampleStage) == Str("2-4")
    ensures Prop(Prop(ExampleStage, "level"), "id") == Str("L1")
    ensures Prop(Author(ExampleStage), "name") == Str("X")
  {
    assert Prop(ExampleStage, "level") == ExampleLevel;
    assert Prop(ExampleStage, "author") == ExampleAuthor;
    assert Meta(ExampleStage) == Obj(map["players" := ExamplePlayers]);
  }

  lemma ExampleCount()
    ensures Players(ExamplePlayers, Str("2-4")) == Ok(Bounds(Finite(2), Finite(4)))
  {
    assert Prop(ExamplePlayers, "min") == Undefined;
    PlayersRange(ExamplePlayers, 2, 4);
    RangeText(2, 4);
  }

  lemma RangeText(a: nat, b: nat)
    requires a < 10 && b < 10
    ensures NatToString(a) + "-" + NatToString(b) == [DigitChar(a), '-', DigitChar(b)]
  {
  }

  lemma NoDash(x: string)
    requires forall i :: 0 <= i < |x| ==> IsDecimalDigit(x[i])
    ensures '-' !in x
  {
  }

  lemma OfNumeral(n: nat)
    ensures ParseInt(NatToString(n)) == Finite(n)
  {
    var x := NatToString(n);
    assert IntToString(n) == x;
    assert "" + x + "" == x;
    ParseIntOfNumeral("", n, "");
  }
}
