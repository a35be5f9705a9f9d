/** The 12-field level record both deployments return under `data`, and the
    defaults they fill in. Every field is the JavaScript value the handler put
    there, so a truthy upstream value of any kind passes through unchanged. */
module Level {
  import opened JsValue

  datatype Record = Record(
    authorName: Json,
    authorAvatar: Json,
    levelName: Json,
    levelId: Json,
    levelType: Json,    // serialised as `type`
    category: Json,
    playersStr: Json,
    hotScore: Json,
    goodRate: Json,
    sortMin: Number,
    sortMax: Number,
    coverUrl: Json)

  const UnknownAuthor: string := "未知作者"
  const UnknownLevel: string := "未知关卡"
  const Unknown: string := "未知"
  const NoPlayerCount: string := "N/A"
  const NoHotScore: string := "0"
  const NoGoodRate: string := "-"
  /** The sort bound used when no player count can be read. */
  const Unbounded: int := 999
  const LongTerm: string := "长线游玩"
  const Casual: string := "轻量趣味"
  const LongTermCategory: string := "LEVEL_CATE_LONG_TERM"

  /** `field` holds `value || default`: the value itself when it is truthy,
      the default text otherwise. */
  predicate Defaults(field: Json, value: Json, default: string) {
    (Truthy(value) ==> field == value) && (!Truthy(value) ==> field == Str(default))
  }

  /** The fields both deployments fill with `value || default`, where every
      default is a non-empty string, hold a truthy value. */
  predicate Filled(r: Record) {
    Truthy(r.authorName) && Truthy(r.levelName) && Truthy(r.levelType) && Truthy(r.category)
    && Truthy(r.playersStr) && Truthy(r.hotScore) && Truthy(r.goodRate)
  }
}
