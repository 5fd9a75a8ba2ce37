# Media link analyzer: verified model of the request logic

This project models, in Dafny, the request logic of a small demo HTTP API
(`Node.js`, an Express server). There are two endpoints:

- `GET /api/analyze?url=&platform=&format=&quality=` guesses the media
  platform of a URL. It then returns a fixed catalog of six fictitious stream
  descriptors, filtered by container format and quality label.
- `GET /api/download?id=` returns a placeholder text attachment named after
  the stream id.

Every part of this logic is a pure function, so the model uses datatypes,
functions and lemmas only:

- `wrappers.dfy` (`Wrappers`): `Option` models a query parameter that may be
  absent. `Result` models a reply: `Ok` is sent with status 200, and
  `Err(msg)` is the 400 reply carrying that message.
- `text.dfy` (`Text`): ASCII `toLowerCase`/`toUpperCase`, plus `Contains`.
  The detector's regular expressions are unanchored alternations of literals
  with escaped dots, so a test "matches" exactly when one of its literals
  occurs as a substring. `Contains` models that and is proved equal to the
  positional definition of an occurrence.
- `detector.dfy` (`Detector`): `detect(url)` is written as the source's
  if-chain. Beside it sits a table-driven reference definition: a first-match
  search over the ordered rules. The two are proved to agree.
- `uri_encoding.dfy` (`UriEncoding`): `encodeURIComponent`, which the thumb
  address applies to the platform. It follows the Encode operation of the
  ECMAScript language specification: characters outside the unreserved set
  become their UTF-8 bytes, written as `%XY`.
- `streams.dfy` (`Streams`): the six-record catalog, `Array.prototype.filter`
  as an order-preserving `Filter`, the format step, and the quality step with
  its fallback.
- `api.dfy` (`Api`): the two handlers, from query parameters to reply.

Query defaults (`platform = 'auto'`, `format = 'auto'`, `quality = 'best'`)
apply only to an ABSENT parameter, as with JavaScript destructuring defaults.
A parameter given with an empty value is used as it is. For example,
`platform=` resolves to the platform `""` and is accepted. `url` and `id` are
rejected when absent or empty, the two falsy string cases.

Three behaviours of the code are worth stating plainly:

- When the quality filter leaves nothing, Node.js:51 resets to the full
  catalog `base`, so the format filter is discarded as well. Thus
  `format=mp3&quality=9999p` and `format=mp3&quality=720p` both yield all six
  records, mp4 ones included (`Streams.SelectFallbackExamples`).
- "Unsupported platform" is not reachable only through auto-detection. An
  explicit `platform=unknown` resolves to `"unknown"` and is refused too
  (`Api.AnalyzeUnsupportedIff`).
- "Missing id" is returned for an empty `id` as well as an absent one.

## Model

| member | source | states |
|---|---|---|
| `Detector.Detect` | Node.js:13-26 | detect is total and always returns one of the eleven platform identifiers |
| `Detector.DetectIsFirstMatch` | Node.js:14-25 | the if-chain equals the first-match search over the ordered rule table, applied to the lower-cased URL |
| `Detector.DetectPrecedence` | Node.js:15-24 | when rule k is the earliest rule with a literal occurring in the lower-cased URL, detect returns rule k's platform |
| `Detector.DetectUnknownIff` | Node.js:15-25 | detect returns "unknown" exactly when none of the thirteen domain literals occurs in the lower-cased URL |
| `Detector.DetectIgnoresCase` | Node.js:14 | two URLs equal up to ASCII case get the same platform |
| `Detector.DetectOfLowerAndUpper` | Node.js:14 | lower-casing or upper-casing the URL first does not change the platform |
| `Detector.DetectWithoutRuleLetters` | Node.js:15-25 | a lower-cased URL with none of the letters y f i w k v d r, and no 'x' directly before a '.', is "unknown" |
| `Detector.DetectXCom` | Node.js:15-18 | a lower-cased URL containing "x.com" and none of the letters y f i w is "twitter" |
| `Detector.DetectShortLink` | Node.js:15 | "https://youtu.be/xyz" is youtube |
| `Detector.DetectUpperCaseHost` | Node.js:14-15 | "https://YOUTUBE.com/watch" is youtube |
| `Detector.DetectUnlistedHost` | Node.js:15-25 | "https://example.com" is unknown |
| `Detector.DetectXComInsideOtherDomain` | Node.js:18 | "https://dropbox.com/s" is twitter, because the x.com literal occurs inside dropbox.com |
| `Text.Lower` | Node.js:14 | same length; every ASCII capital is replaced by its small letter, every other character kept |
| `Text.Upper` | Node.js:56 | same length; every ASCII small letter is replaced by its capital, every other character kept |
| `Text.LowerIdempotent` | Node.js:14 | lower-casing twice equals lower-casing once |
| `Text.ContainsIff` | Node.js:15-24 | the substring test holds exactly when the pattern occurs at some position, which is what an unanchored literal regex tests |
| `UriEncoding.EncodeURIComponent` | Node.js:57 | the encoded text has only unreserved characters and '%', and is never shorter than the input |
| `UriEncoding.Utf8` | Node.js:57 | the bytes that encodeURIComponent escapes have UTF-8 shape and decode back to the character's code point; the shortest form: one byte below U+0080, two below U+0800, three below U+10000, four otherwise |
| `UriEncoding.PercentByte` | Node.js:57 | an escaped byte is '%' followed by two upper-case hex digits whose value is the byte |
| `UriEncoding.EncodeUnreservedIdentity` | Node.js:57 | a string of unreserved characters is left as it is |
| `UriEncoding.EncodeChangesIffReserved` | Node.js:57 | encoding leaves the string unchanged exactly when no character of it needs escaping |
| `Api.DetectedPlatformNeedsNoEscaping` | Node.js:57 | every platform identifier passes through encodeURIComponent unchanged |
| `Streams.Catalog` | Node.js:36-43 | six records; record i has id plat + "-" + tag i; records 0-3 are mp4 video, records 4-5 are mp3 audio; all have audio; sizes are positive whole MiB |
| `Streams.CatalogIdsDistinct` | Node.js:36-43 | every id starts with plat + "-" and the six ids are pairwise distinct |
| `Streams.CatalogQualitiesDistinct` | Node.js:36-43 | the six quality labels are pairwise distinct |
| `Streams.Filter` | Node.js:47-50 | filter keeps only elements that satisfy the predicate and never grows the sequence |
| `Streams.FilterMembers` | Node.js:47-50 | an element is in the filtered sequence exactly when it is in the input and satisfies the predicate |
| `Streams.FilterMultiset` | Node.js:47-50 | filter keeps every copy of an element that satisfies the predicate and no copy of any other |
| `Streams.FilterIsSubsequence` | Node.js:47-50 | filtering keeps the order: its result is a subsequence of the input |
| `Streams.SubsequenceIdsDistinct` | Node.js:36-52 | leaving records out of a sequence whose ids are pairwise distinct keeps them pairwise distinct |
| `Streams.FormatStepSpec` | Node.js:45-48 | the format step is the identity for "auto"; otherwise it keeps, in order and with every copy, exactly the records in container mp3 for "mp3" and mp4 for any other value |
| `Streams.FormatStepOfCatalog` | Node.js:45-48 | on the catalog the format step never leaves nothing |
| `Streams.FormatStepOfCatalogExactly` | Node.js:45-48 | on the catalog, "mp3" leaves records 4-5 and any other non-auto format leaves records 0-3 |
| `Streams.QualityStepSpec` | Node.js:49-52 | "best" changes nothing; otherwise the result is, in order and with every copy, exactly the records with the requested label when one exists, and the full base when none does |
| `Streams.SelectStreamsNonEmptySubsequence` | Node.js:45-52 | the final streams are never empty and always a subsequence of the catalog |
| `Streams.SelectMp3` | Node.js:45-52 | format=mp3 alone gives exactly the two mp3 records |
| `Streams.SelectMp4At720p` | Node.js:45-52 | format=mp4&quality=720p gives exactly the 720p video record |
| `Streams.SelectFallsBackToCatalog` | Node.js:49-51 | a quality label other than "best" that no catalog record has gives the whole catalog, whatever the format |
| `Streams.SelectFallbackExamples` | Node.js:49-51 | quality=9999p gives all six records, and so do format=mp3&quality=9999p and format=mp3&quality=720p, because the fallback discards the format filter |
| `Api.Analyze` | Node.js:29-59 | Err("Missing url") exactly when url is absent or empty; the only errors are the two messages; on success the platform is not "unknown", the title is "Sample from " + upper(platform), and the streams are a non-empty subsequence of that platform's catalog, as selected by format and quality |
| `Api.AnalyzeUnsupportedIff` | Node.js:30-33 | with a url present, the reply is Err("Unsupported platform") exactly when the resolved platform is "unknown", and Ok otherwise |
| `Api.AnalyzeExplicitPlatform` | Node.js:30-33 | an explicit platform other than "auto" and "unknown" is never refused and is echoed verbatim |
| `Api.AnalyzeAutoDetect` | Node.js:32-57 | with auto-detection the reply succeeds exactly when detect is not "unknown", names the detected platform, and its thumb embeds that name unescaped |
| `Api.AnalyzeStreamIds` | Node.js:36-58 | every stream offered is a catalog record of the reply's platform, its id starts with platform + "-", and no two streams of one reply share an id |
| `Api.AnalyzeUnlistedHost` | Node.js:31-33 | url=https://example.com with auto-detection is refused as "Unsupported platform" |
| `Api.AnalyzeFilterScenarios` | Node.js:45-58 | for a youtu.be URL: format=mp3 gives the two mp3 records, quality=9999p gives all six, format=mp4&quality=720p gives the single 720p record |
| `Api.Download` | Node.js:63-72 | Err("Missing id") exactly when id is absent or empty; otherwise the Content-Disposition header names the file id + ".txt", the type is text/plain, and the body contains the id |
| `Api.DownloadExample` | Node.js:69-71 | id=foo gives the header `attachment; filename="foo.txt"` and a body containing "foo" |

## Left out

- Express setup, `cors()` and `express.json()` (Node.js:6-8): library middleware with no logic of the program's own.
- The rate limiter (Node.js:10): library code whose per-client window state matters only across concurrent requests.
- `app.listen` and the `PORT` environment variable (Node.js:74-75): process and network plumbing.
- HTTP output: `res.status`, `res.json`, `res.setHeader` and `res.send` are modelled as the returned `Result` value. The JSON serialization of the reply is not modelled.
- Header validation inside Node's HTTP layer: `setHeader` throws for an id holding characters that are illegal in a header value, such as a newline. The model returns `Ok` for those ids too.
- Unicode case mapping: `toLowerCase`/`toUpperCase` are modelled for ASCII letters only. Non-ASCII characters that JavaScript maps onto ASCII letters, such as the Kelvin sign, are left unchanged.
- Lone UTF-16 surrogates: Dafny characters are Unicode scalar values, so the `URIError` that `encodeURIComponent` throws for a lone surrogate cannot arise in the model.
- Query values that Express parses as arrays or objects (Node.js:30, 64): every parameter is an optional string.
