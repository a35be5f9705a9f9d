# Genshin UGC level lookup: request handlers

This project models the two request handlers of a small proxy that looks up
Genshin Impact "UGC" levels (Miliastra Wonderland stages) and relays their
cover images. The proxy ships as two deployments:

- `_worker.js`, a Cloudflare / Alibaba ESA worker;
- `server.js`, an Express 4 server.

Each deployment serves two routes:

- **`/proxy-image/<reference>`** takes an encoded image URL and fetches that
  image. The reference may carry a fake `.png` suffix. The handler then
  relays the image's octets with a long-lived cache header. The two
  deployments decode the reference in opposite orders:
  - the worker base-64-decodes first (`atob`), then percent-decodes
    (`decodeURIComponent`);
  - the server percent-decodes first, then base-64-decodes with Node's
    `Buffer` and reads the octets as UTF-8.
- **`/guid?id=<id>`** asks a metadata service about a level. It checks the
  answer's structure, then normalises it into one 12-field level record. A
  `value || default` fallback fills each field:
  - `未知作者` for the author and `未知关卡` for the level name;
  - `未知`, `N/A`, `0` and `-` for the other fields;
  - 999 for an unknown player bound.

  The two deployments call different services:
  - the worker GETs a "stage" service;
  - the server POSTs to the miyoushe "level full info" API.

  They also differ in how they pick the cover and how they read player
  counts.

The model is layered as follows:

- **JavaScript semantics** the handlers rely on:
  - truthiness, `||`, and `?.` versus `.` (a TypeError on a nullish value);
  - `parseInt` as in ECMA-262 section 19.2.5, with its `ToString` step;
  - `String.prototype.split` and first-match `replace`;
  - `decodeURIComponent` and `encodeURIComponent` with strict UTF-8;
  - `atob` as the WHATWG Infra "forgiving-base64 decode" over the RFC 4648
    section 4 alphabet;
  - the Fetch standard's default `text/plain;charset=UTF-8` type for a text
    body.
- **Express 4 response semantics**, in the `Server.Reply` class:
  - `res.set('Content-Type', v)` appends `; charset=utf-8` to a textual type
    that names no charset;
  - `res.send(text)` defaults to `text/html`;
  - `res.send(buffer)` defaults to `application/octet-stream`;
  - `res.json` defaults to `application/json`.
- **The handlers.** The worker's handlers are pure functions from the request
  and the services' answers to the response. The server's handlers are
  methods that change a `Reply` step by step, proved equal to pure reference
  functions.

Every handler result also records what the handler asked a service for (the
URL fetched, or the body POSTed). This lets contracts say when no request is
made at all.

Details of the code that the model keeps as written:

- the default author and level names are `未知作者` and `未知关卡`; only type and category default to `未知`;
- the worker's `coverUrl` can be a falsy or non-string value: the first
  element of a non-empty `images` array is used as it is, even when it is
  `null`;
- the worker answers a non-2xx stage response with 500 (its `throw` lands in the catch);
- the worker's 500 body carries the error's message.

## Model

| member | source | states |
|---|---|---|
| Worker.ProxyImage | _worker.js:20-61 | Status is 200, 400 or 404, always with the CORS headers. 400 exactly when the path holds no reference once `.png` is stripped; then nothing is fetched and the body is "No URL provided". When the reference does not decode, nothing is fetched and the answer is the 404 "Image error: " + the decoding error's message. When it decodes, exactly the decoded URL is fetched and the answer is what `Image` makes of the fetched image. 200 exactly when that URL answered 2xx. |
| Worker.EmptyReference | _worker.js:22-27 | The reference is empty exactly when the path is the bare prefix, with or without ".png". |
| Worker.Decode | _worker.js:33 | `decodeURIComponent(atob(ref))`. It fails only with atob's InvalidCharacterError or a URIError. |
| Worker.Image | _worker.js:36-60 | 200 exactly for a 2xx image answer, with its octets, its Content-Type (or image/png) and the immutable cache header. A non-2xx answer becomes the 404 "Image error: Upstream error: " + its status; a failed fetch becomes the 404 "Image error: " + the fetch error's message. |
| Worker.ImageContentType | _worker.js:53 | The upstream type when present and non-empty; image/png when it is absent or empty; never empty. |
| Worker.ImageFailure | _worker.js:58-59 | A 404 with CORS headers whose text starts with "Image error: ". |
| Worker.Respond | _worker.js:28 | The headers are exactly the given ones, plus text/plain;charset=UTF-8 as Content-Type for a text body that has none; status and body are kept. |
| Worker.Guid | _worker.js:64-153 | Headers are always the CORS and no-cache set with the UTF-8 JSON type. 400 with "缺少 ID" exactly when the id is missing or empty, exactly when nothing is fetched. Otherwise exactly the stage URL for the id is fetched and the response is `Outcome` of the id and the service's answer to that URL. A success body is a filled record with a truthy levelId. |
| Worker.Outcome | _worker.js:81-152 | Every response has the `/guid` shape: no-cache headers; 200 exactly for a success body, whose record is filled and whose levelId is truthy for a non-empty id; 404 only with "数据结构异常或ID无效"; 500 only with an error under "请求超时或源站错误: ". 404 exactly when a 2xx answer parsed but failed the author/level gate. A failed fetch gives the prefix + its message; a non-2xx answer the prefix + "Upstream API Error: " + its status; a 2xx answer is `Answer` of its body. |
| Worker.Answer | _worker.js:91-145 | The `/guid` shape again. Unparsable JSON gives the prefix + the SyntaxError message. 404 exactly when the parsed document fails the author/level gate. A document that passes gives 200 with exactly the `Stage.Normalize` record, or, when normalising throws, the prefix + the error's message. |
| Worker.Failure | _worker.js:147-152 | A 500 with the no-cache headers and the failure prefix. |
| Worker.Reference | _worker.js:33 | The reference a client builds, `btoa(encodeURIComponent(url))`, is at least as long as the URL. |
| Worker.ProxyRoundTrip | _worker.js:22-36 | For any non-empty URL, with or without ".png", the handler fetches exactly the URL the reference was made from. |
| Worker.PathReference | _worker.js:22-25 | Prefix removal and suffix stripping give back the reference. |
| Worker.ReferenceDecodes | _worker.js:33 | Decoding a reference gives back its URL. |
| Worker.ReferenceHasNoSuffix | _worker.js:23 | A reference never ends in ".png", so the strip cannot eat into it. |
| Stage.Cover | _worker.js:101-107 | The first image whenever `images` is truthy and non-empty, even a falsy one. Otherwise the `videoCover` when truthy. Otherwise "". |
| Stage.Players | _worker.js:109-125 | An explicit `min` gives `parseInt(min)` and `parseInt(max)`. "N/A" gives 999/999. A non-string count throws TypeError, and that is the only error. A NaN lower bound only comes from an explicit `min`. |
| Stage.Normalize | _worker.js:97-140 | It succeeds exactly when reading the player count succeeds, and otherwise fails with TypeError. The record is filled. Each field is its source value when truthy, else its default: levelId is `level.id \|\| id` (truthy for a non-empty id), author name and avatar from `author.game` with 未知作者 and "", level name 未知关卡, type and category 未知, hot score "0", good rate "-". The bounds are those `Players` reads, playersStr is `players.str \|\| 'N/A'`, and coverUrl is `Cover` of `level.meta \|\| {}`. |
| Stage.PlayersOfTwoParts | _worker.js:119-124 | A count splitting into two parts yields 999/999 when the first is not a number, else both parsed parts. |
| Stage.Build | _worker.js:127-140 | The record literal is filled and keeps the level id, count text, bounds and cover it is given; every other field is its source value when truthy, else its default (未知作者, "", 未知关卡, 未知, 未知, "0", "-"). |
| Stage.Acceptable | _worker.js:93 | The gate passes only for an object that has both an `author` and a `level` field. |
| Stage.NormalizeReads | _worker.js:97-140 | For an accepted document whose player count reads as some bounds and whose author name and level id are truthy, the record carries exactly those bounds, that name and that id. |
| Stage.ExampleRecord | _worker.js:93-140 | `{author: {game: {name: "X"}}, level: {id: "L1", meta: {players: {str: "2-4"}}}}` passes the gate and gives sortMin 2, sortMax 4, authorName "X" and levelId "L1". |
| Stage.VideoCoverOnly | _worker.js:101-107 | A cover with only a truthy `videoCover`, or with an empty `images` array beside it, yields that video cover. |
| Stage.RangeParts | _worker.js:119 | "a-b" splits at its dash into a and b. |
| Stage.PlayersRange | _worker.js:118-124 | "a-b" gives bounds a and b. |
| Stage.PlayersSingle | _worker.js:123 | "n" gives n for both bounds. |
| Stage.PlayersWithoutDigits | _worker.js:118-121 | A count without a dash that cannot start a number, such as "多人", leaves 999/999. |
| Stage.PlayersOpenRange | _worker.js:123 | "a-x" with a non-numeric x leaks NaN into sortMax. |
| Stage.PlayersMinWithoutMax | _worker.js:115-117 | `{min: 2}` gives 2 and NaN. |
| Stage.PlayersZero | _worker.js:120-123 | "0-4" keeps the zero lower bound. |
| Stage.PlayersNumberThrows | _worker.js:119 | A numeric `str` makes `split` throw TypeError. |
| Stage.FalsyImageBlocksFallback | _worker.js:103-106 | `images: [null]` yields null even when a video cover exists. |
| Stage.OfNumeral | _worker.js:120 | `parseInt` of a decimal numeral is its value. |
| FullInfo.Outcome | server.js:81-127 | Status is 200, 404 or 500, and 200 exactly for a success body. Transport or non-2xx failures and a null document give 500 "服务器内部错误或请求超时". A non-zero retcode gives 404 "API Error: " + the message as text. With retcode 0: a missing `level_info` or `developer_news_response` gives 404 "数据结构异常"; otherwise a throwing `Normalize` gives the 500, and a successful one gives 200 with exactly its record, which is filled and echoes the id. |
| FullInfo.Cover | server.js:100-107 | TypeError exactly when `cover_img?.url` is falsy, `images` is non-empty and its first element is nullish. Otherwise the chain: a truthy `cover_img.url`; else a truthy `images[0].url`; else `video_info.video_cover` when truthy; else "". |
| FullInfo.VideoCoverOnly | server.js:101-106 | A level with only a truthy `video_info.video_cover`, or an empty `images` array beside it, gets that video cover. |
| FullInfo.MissingDeveloper | server.js:115 | A document that passes the structure check but has no `developer` makes the handler answer 500 "服务器内部错误或请求超时". |
| FullInfo.UnparsableBody | server.js:81-86 | A 2xx body that is not JSON is kept as text, has no retcode, and gives 404 "API Error: undefined". |
| FullInfo.LevelInfo | server.js:88-97 | `level_info` is undefined when `resp_map` is not an object. |
| FullInfo.DeveloperInfo | server.js:88-98 | `developer_news_response` is undefined when `resp_map` is not an object. |
| FullInfo.Document | server.js:81 | `response.data` of a body that did not parse is a string with no `retcode`. |
| FullInfo.SortBound | server.js:110-111 | `parseInt(x) \|\| 999`: a non-zero finite number, the parse itself when truthy, else 999. |
| FullInfo.Normalize | server.js:100-127 | Fails exactly on a throwing cover or a nullish developer, with TypeError. Otherwise the record is filled, levelId is the id, coverUrl is exactly `Cover`'s value, the bounds are exactly `SortBound` of `limit_play_num_min` and `limit_play_num_max` (finite and non-zero), the category is "长线游玩" exactly for LEVEL_CATE_LONG_TERM, else "轻量趣味", and each other field is its source value when truthy, else its default (未知作者, "", 未知关卡, 未知, "N/A", "0", "-"). |
| FullInfo.Build | server.js:114-127 | The record literal is filled, echoes the id, carries the cover it was given, has the `SortBound` bounds and the two-way category, and each other field is its source value when truthy, else its default. |
| FullInfo.SortBoundOfNumber | server.js:110-111 | A number n gives n, except 0, which gives 999. |
| FullInfo.SortBoundMissing | server.js:110-111 | A missing or null bound gives 999. |
| FullInfo.NullFirstImageThrows | server.js:102-103 | `images: [null]` without a cover image throws whatever `video_info` holds. |
| FullInfo.RetcodeWithoutMessage | server.js:84-86 | A non-zero retcode without a message reports "API Error: undefined". |
| Server.Reply.constructor | server.js:16 | A fresh response: 200, no headers, no body. |
| Server.Reply.Set | server.js:37-38 | Stores the header, applying the charset rule to Content-Type; nothing else changes. |
| Server.Reply.Status | server.js:24 | Sets the status only. |
| Server.Reply.Send | server.js:24 | Sets the text body, and text/html; charset=utf-8 unless a type was set. |
| Server.Reply.SendOctets | server.js:40 | Sets the octet body, and application/octet-stream unless a type was set. |
| Server.Reply.Json | server.js:55 | Sets the JSON body, and application/json; charset=utf-8 unless a type was set. |
| Server.ContentTypeValue | server.js:38 | The stored value is the given one, or it with "; charset=utf-8" appended, and is unchanged when it already names a charset. |
| Server.ProxyImageReply | server.js:16-44 | Status is 200, 400 or 404. 400 exactly for an empty reference, with or without ".png", and nothing is fetched. When percent-decoding the reference fails, nothing is fetched and the answer is 404. Otherwise exactly the text Node decodes from the base 64 is fetched. 404 is always "Image error" as HTML. 200 exactly for a 2xx image, with its octets, the immutable cache header and its Content-Type after the charset rule ("undefined" when absent). |
| Server.ProxyImage | server.js:16-44 | The imperative handler on a fresh response leaves exactly the reference function's response and fetches the same URL. |
| Server.GuidReply | server.js:47-135 | Headers are always the three no-cache ones plus the UTF-8 JSON type. 400 with "缺少 ID" exactly for a falsy id. For a truthy id, the status and body are exactly `FullInfo.Outcome` of the id and the API's answer to the body POSTed for it. 200 exactly for a success body, whose record is filled and echoes the id. |
| Server.Guid | server.js:47-135 | The imperative handler leaves exactly the reference function's response and POSTs the request body exactly when the id is truthy. |
| Server.RequestBody | server.js:62-70 | The POSTed body carries the id as `level_id`. |
| Server.PlainType | server.js:38 | A value without ';' names no charset and is its own media type. |
| Server.TextualType | server.js:38 | A parameterless textual type gets "; charset=utf-8". |
| Server.OtherType | server.js:38 | Any other parameterless type is stored unchanged. |
| Server.JsonContentType | server.js:55 | `res.json`'s type is application/json; charset=utf-8. |
| Server.HtmlContentType | server.js:24 | `res.send`'s text type is text/html; charset=utf-8. |
| Server.ImageContentType | server.js:38 | image/png is stored unchanged. |
| Server.AbsentContentType | server.js:38 | An absent upstream type is stored as "undefined". |
| Server.Reference | server.js:27-28 | The parameter a client sends, the base 64 of the URL's UTF-8, is at least as long as the URL. |
| Server.Base64Text | server.js:20-27 | Base 64 text is unchanged by percent-decoding and never ends in ".png". |
| Server.ProxyRoundTrip | server.js:20-30 | If Node's decoder agrees with strict decoding on canonical input, the handler fetches exactly the URL the parameter was made from, with or without ".png". |
| Deployments.WorkerReferenceOnServer | server.js:27-28 | Given a worker reference, the server fetches the percent-encoded URL, which for any absolute URL is not the URL. |
| Deployments.EncodingChangesUrl | _worker.js:33 | Percent-encoding changes any string containing ':'. |
| Http.StripSuffix | _worker.js:23-25 | With ".png" at the end, the result plus ".png" is the input; otherwise the input is unchanged. |
| Http.StripSuffixEmpty | server.js:20-24 | Stripping leaves "" exactly for "" and ".png". |
| JsNumber.ParseIntOfNumeral | _worker.js:116 | `parseInt` of optional white space, a signed decimal numeral and a tail not continuing it is the numeral's value. |
| JsNumber.ParseIntOfNumber | _worker.js:116-117 | `parseInt` of a number is that number. |
| JsNumber.ParseIntOf | _worker.js:116-120 | `parseInt` of a string parses that string; of a boolean or an object (text starting "t", "f" or "[") it is NaN. |
| JsNumber.ParseIntSign | server.js:110-111 | `parseInt` of blank text is NaN, and a negative result comes only from text whose first non-blank character is '-'. |
| JsNumber.NumeralTrimmed | _worker.js:120 | Leading white space before a numeral is removed and the numeral kept. |
| JsNumber.NumeralMagnitude | _worker.js:120 | The unsigned part of a numeral reads back as its absolute value, and the sign is '-' exactly for a negative one. |
| JsNumber.ParseIntOfUndefined | _worker.js:116-117 | `parseInt(undefined)` is NaN. |
| JsNumber.ParseIntOfNull | server.js:110-111 | `parseInt(null)` is NaN. |
| JsNumber.NoLeadingDigit | server.js:110-111 | `parseInt` of text starting with no sign, digit or white space is NaN. |
| JsNumber.TrimStart | _worker.js:120 | `parseInt` removes a prefix of white space only, stopping at the first other character. |
| JsNumber.MagnitudeOfNumeral | _worker.js:120 | The digits of a numeral read back to its value. |
| JsNumber.SignedNumeral | _worker.js:120 | The text of an integer starts with neither white space nor '+'; it starts with '-' exactly when negative, followed by the magnitude's digits. |
| JsNumber.DigitsValueOfNumeral | _worker.js:120 | Folding the digits of a numeral gives its value. |
| JsNumber.DigitRunOfNumeral | _worker.js:120 | The digit run of a numeral followed by a non-digit is the numeral. |
| JsString.SplitJoin | _worker.js:119 | Splitting a join of separator-free parts gives the parts back. |
| JsString.SplitPair | _worker.js:119 | "a-b" splits into a and b. |
| JsString.SplitNone | _worker.js:119 | A string without the separator splits into itself. |
| JsString.RemoveLeading | _worker.js:22 | Replacing the first occurrence of a prefix removes that prefix. |
| JsString.RemoveFirst | _worker.js:22 | `replace` with a string pattern cuts out its first occurrence and nothing else; without an occurrence the string is unchanged. |
| JsString.Split | _worker.js:119 | The parts are at least one, contain no separator and join back to the input; there is more than one exactly when the input contains the separator. |
| JsValue.Get | server.js:103 | Reading a property with `.` throws exactly on null and undefined. |
| JsValue.Or | _worker.js:98-110 | `a \|\| b` is a when a is truthy, else b; it is truthy exactly when one of them is. |
| JsValue.FalsyValues | _worker.js:93 | The falsy values are exactly undefined, null, false, 0 and "" (NaN is not a JSON value here). |
| JsValue.PropReads | server.js:88-103 | `?.` on null or undefined gives undefined; an own field gives its value; a missing key other than `length` gives undefined. |
| JsValue.IndexReads | _worker.js:104 | Indexing null or undefined gives undefined; an array gives its element in range and undefined past its end. |
| JsValue.ToString | _worker.js:116 | A string is its own text, and every value other than a string or an array has non-empty text. |
| Base64.DecodeEncode | _worker.js:33 | `atob` inverts base 64 encoding for all octet strings. |
| Base64.ForgivingDecode | _worker.js:33 | A successful decoding has three octets for every four characters left after removing white space and padding. |
| Base64.Encode | _worker.js:33 | Encoded length is 4 characters per started 3 octets. |
| Base64.EncodeLacks | _worker.js:23 | Encoding contains no character outside the alphabet and '='. |
| Base64.EncodeAlphabet | _worker.js:33 | Every encoded character is '=' or in the alphabet. |
| Base64.DecodeChars | _worker.js:33 | Alphabet text, unpadded or padded up to a group of four, decodes to the octets its sextets spell. |
| Base64.DecodeShortGroup | _worker.js:33 | A final two-character group decodes to one octet with or without "=="; the low four bits of the second character are dropped. |
| Base64.DecodeIgnoresWhitespace | _worker.js:33 | ASCII white space anywhere is skipped. |
| Base64.DecodeRejectsLength | _worker.js:33 | Alphabet text whose length is 1 mod 4 is rejected. |
| Base64.DecodeRejectsPadding | _worker.js:33 | Three '=' after such text are rejected. |
| Base64.ThirdPadKept | _worker.js:33 | A third trailing '=' survives padding removal and makes decoding fail. |
| Base64.DecodeRejectsCharacter | _worker.js:33 | Any character outside the alphabet, '=' and white space, such as the URL-safe '-' and '_', is rejected wherever it occurs. |
| Base64.Kept | _worker.js:33 | A character that is not white space survives white-space removal. |
| Base64.EncodedLength | _worker.js:33 | The sextet characters plus the padding fill whole groups of four. |
| Base64.UngroupGroup | _worker.js:33 | Three octets come back from the four sextets they are split into. |
| Base64.StripPad | _worker.js:33 | Removing the padding of an encoding leaves its alphabet characters. |
| Base64.Prepare | _worker.js:33 | White-space removal and padding removal together leave the alphabet characters of padded text. |
| Base64.CharsHaveNoWhitespace | _worker.js:33 | Alphabet characters and '=' contain no white space. |
| Base64.StripPadding | _worker.js:33 | At most two trailing '=' are removed, and the rest is a prefix of the input. |
| Base64.RemoveWhitespace | _worker.js:33 | Text without white space is unchanged. |
| Base64.Octets | _worker.js:33 | Sextets become 3/4 as many octets. |
| Base64.OctetsOfSextets | _worker.js:33 | Regrouping sextets into octets inverts the encoder's grouping. |
| Base64.ValuesOfChars | _worker.js:33 | The alphabet characters of an encoding map back to their sextets. |
| Uri.DecodeComponent | _worker.js:33 | A decoding is never longer than its input, and text without '%' decodes to itself. |
| Uri.DecodeEncode | _worker.js:33 | `decodeURIComponent` inverts `encodeURIComponent` for all strings. |
| Uri.EncodeComponent | _worker.js:33 | The encoding holds only unreserved characters and '%', and is never shorter than its input. |
| Uri.DecodeEncodeChar | _worker.js:33 | One character's escapes decode back to it. |
| Uri.EscapesOf | _worker.js:33 | The escapes of a run of octets read back as those octets. |
| Uri.EscapeOf | _worker.js:33 | One "%XY" escape reads back as its octet. |
| Utf8.Decode | server.js:28 | A successful strict decoding re-encodes to the input. |
| Utf8.DecodeEncode | server.js:28 | Strict UTF-8 decoding inverts encoding for all strings. |
| Utf8.DecodeEncodeChar | server.js:28 | One scalar value's octets decode back to it. |
| Utf8.DecodeChar | server.js:28 | A decoded character encodes back to exactly the octets given, so only shortest forms are accepted. |
| Utf8.EncodeAssembled | server.js:28 | A well-formed, non-overlong sequence assembles to the code point whose encoding it is. |
| Utf8.EncodeAscii | _worker.js:33 | The UTF-8 of ASCII text is its Latin-1 octets, the octets `atob` output stands for. |
| Bytes.Latin1 | _worker.js:33 | atob's binary string has one character per octet, with that code. |

## Left out

- Network I/O, timeouts (10 s and 15 s in the server) and `async` scheduling. A service's answer is a function parameter, so one URL always yields one answer.
- The request headers sent upstream (User-Agent, Referer) are not modelled. The fetched URL and the POST body are.
- OPTIONS preflight, the worker's fallback banner response, Express's static files, the `*` 404 route, body parsers, `app.listen` and the console log: outside the two handlers.
- JSON text: the body is kept as the value it was built from. `JSON.stringify` would turn NaN into null and omit undefined fields; this is not modelled.
- Floating point: JSON numbers are integers, and NaN only arises from `parseInt`.
- Objects with their own `toString`/`valueOf`, and array-likes whose `length` is not a number: `ToString` and `length` use the plain JSON meaning.
- UTF-16 code units: strings are sequences of Unicode scalar values, so lone surrogates (a URIError in `decodeURIComponent`) cannot occur.
- Server.ProxyRoundTrip: Node's `Buffer.from(s, 'base64').toString('utf-8')` is the parameter `bufferText`. The round trip assumes it agrees with strict decoding on canonical input. Node's leniency elsewhere (URL-safe alphabet, stopping at bad characters, U+FFFD for bad UTF-8) is not modelled.
- Express's own percent-decoding of route parameters and parsing of the query string: the handlers receive the decoded `param` and `id`.
- Engine-defined error messages (atob's, URIError's, SyntaxError's, TypeError's text) are a parameter record; only their kinds are modelled.
- Errors while reading the body (`arrayBuffer`) are not modelled.
- Express's ETag, Content-Length and X-Powered-By headers are not modelled.
- Header names are compared exactly, not case-insensitively.
- Server.Reply.Send: when a Content-Type was already set, Express 4 also rewrites its charset to utf-8. The model keeps the value as set, and no handler path sends text after setting a type.
- Server.Reply.Json: same as `Send`. No handler path reaches it with a type already set.
- JsNumber.ParseIntOfNumber: numbers are integers, so `parseInt` of a number whose text JavaScript writes in exponent form (magnitude at least 10^21, as in `parseInt(1e21)`, which is 1) is not modelled; the model reads the full digit string.
- JsValue.IntToString: integers are printed as plain decimal at any size; JavaScript's exponent form for magnitudes of at least 10^21 is not modelled.
- JsNumber.ParseInt: the digits are read as an exact integer; the rounding of runs above 2^53 to the nearest double is not modelled.
