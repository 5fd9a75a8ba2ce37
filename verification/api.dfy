/**
 * The two request handlers, `/api/analyze` and `/api/download`, as functions
 * from their query parameters to the reply. An `Err` reply is sent with
 * status 400, an `Ok` reply with status 200.
 */
module Api {
  import opened Wrappers
  import opened Text
  import opened Detector
  import opened UriEncoding
  import opened Streams

  /** A query value the handlers treat as missing: absent, or the empty string. */
  predicate Falsy(v: Option<string>) {
    v.None? || v.value == ""
  }

  // GET /api/analyze?url=&platform=&format=&quality=

  datatype AnalyzeReply = AnalyzeReply(platform: string, title: string, thumb: string, streams: seq<Stream>)

  /** The platform the reply is for: detected from the URL for "auto", otherwise taken verbatim. */
  function ResolvePlatform(url: string, platform: string): string {
    if platform == "auto" then Detect(url) else platform
  }

  /** The placeholder image address for a platform. */
  function ThumbUrl(plat: string): string {
    "https://picsum.photos/seed/" + EncodeURIComponent(plat) + "/160/90"
  }

  /**
   * The analyze handler. `platform`, `format` and `quality` default to
   * "auto", "auto" and "best" only when absent; an empty value is used as it is.
   */
  function Analyze(url: Option<string>, platform: Option<string>, format: Option<string>, quality: Option<string>)
    : (r: Result<AnalyzeReply>)
    ensures r == Err("Missing url") <==> Falsy(url)
    ensures r.Err? ==> r.msg == "Missing url" || r.msg == "Unsupported platform"
    ensures r.Ok? ==> r.value.platform != "unknown"
    ensures r.Ok? ==> r.value.title == "Sample from " + Upper(r.value.platform)
    ensures r.Ok? ==> r.value.streams != [] && IsSubsequence(r.value.streams, Catalog(r.value.platform))
    ensures r.Ok? ==> r.value.streams == SelectStreams(Catalog(r.value.platform), format.GetOr("auto"), quality.GetOr("best"))
  {
    if Falsy(url) then Err("Missing url")
    else
      var plat := ResolvePlatform(url.value, platform.GetOr("auto"));
      if plat == "unknown" then Err("Unsupported platform")
      else
        var streams := SelectStreams(Catalog(plat), format.GetOr("auto"), quality.GetOr("best"));
        SelectStreamsNonEmptySubsequence(plat, format.GetOr("auto"), quality.GetOr("best"));
        Ok(AnalyzeReply(plat, "Sample from " + Upper(plat), ThumbUrl(plat), streams))
  }

  /**
   * With a URL present the request is refused as unsupported exactly when the
   * resolved platform is "unknown", which an explicit `platform=unknown` also gives.
   */
  lemma AnalyzeUnsupportedIff(url: Option<string>, platform: Option<string>, format: Option<string>, quality: Option<string>)
    requires !Falsy(url)
    ensures Analyze(url, platform, format, quality) == Err("Unsupported platform") <==>
            ResolvePlatform(url.value, platform.GetOr("auto")) == "unknown"
    ensures Analyze(url, platform, format, quality).Ok? <==>
            ResolvePlatform(url.value, platform.GetOr("auto")) != "unknown"
  {
  }

  /** An explicit platform other than "auto" and "unknown" is never refused, and is echoed verbatim. */
  lemma AnalyzeExplicitPlatform(url: Option<string>, p: string, format: Option<string>, quality: Option<string>)
    requires !Falsy(url) && p != "auto" && p != "unknown"
    ensures var r := Analyze(url, Some(p), format, quality);
      r.Ok? && r.value.platform == p && r.value.thumb == ThumbUrl(p)
  {
  }

  /** Every platform identifier is a word of lower-case ASCII letters. */
  lemma PlatformsAreLowerCaseWords()
    ensures forall p, i :: p in Platforms && 0 <= i < |p| ==> 'a' <= p[i] <= 'z'
  {
  }

  /** So a detected platform passes through `encodeURIComponent` unchanged. */
  lemma DetectedPlatformNeedsNoEscaping(plat: string)
    requires plat in Platforms
    ensures EncodeURIComponent(plat) == plat
  {
    PlatformsAreLowerCaseWords();
    EncodeUnreservedIdentity(plat);
  }

  /**
   * With auto-detection the reply names the detected platform, its thumb
   * address embeds that name unescaped, and the request is refused exactly
   * when detection gives "unknown".
   */
  lemma AnalyzeAutoDetect(url: Option<string>, platform: Option<string>, format: Option<string>, quality: Option<string>)
    requires !Falsy(url) && platform.GetOr("auto") == "auto"
    ensures var r := Analyze(url, platform, format, quality);
      && (r.Ok? <==> Detect(url.value) != "unknown")
      && (r.Ok? ==> r.value.platform == Detect(url.value))
      && (r.Ok? ==> r.value.thumb == "https://picsum.photos/seed/" + r.value.platform + "/160/90")
  {
    DetectedPlatformNeedsNoEscaping(Detect(url.value));
  }

  /** Every stream offered belongs to the catalog of the reply's platform and carries its prefix, and no two share an id. */
  lemma AnalyzeStreamIds(url: Option<string>, platform: Option<string>, format: Option<string>, quality: Option<string>)
    ensures var r := Analyze(url, platform, format, quality);
      r.Ok? ==> forall x :: x in r.value.streams ==> x in Catalog(r.value.platform) && r.value.platform + "-" <= x.id
    ensures var r := Analyze(url, platform, format, quality);
      r.Ok? ==> forall i, j :: 0 <= i < j < |r.value.streams| ==> r.value.streams[i].id != r.value.streams[j].id
  {
    var r := Analyze(url, platform, format, quality);
    if r.Ok? {
      var reply := r.value;
      CatalogIdsDistinct(reply.platform);
      SubsequenceIdsDistinct(reply.streams, Catalog(reply.platform));
      forall x | x in reply.streams ensures x in Catalog(reply.platform) && reply.platform + "-" <= x.id {
        SubsequenceMembers(reply.streams, Catalog(reply.platform), x);
      }
    }
  }

  /** An auto-detected URL that matches no rule is refused. */
  lemma AnalyzeUnlistedHost(url: string)
    requires url == "https://example.com"
    ensures Analyze(Some(url), None, None, None) == Err("Unsupported platform")
  {
    DetectUnlistedHost(url);
  }

  /** Format and quality requests on a detected YouTube URL. */
  lemma AnalyzeFilterScenarios(url: string)
    requires url == "https://youtu.be/xyz"
    ensures var r := Analyze(Some(url), None, Some("mp3"), None);
      r.Ok? && r.value.platform == "youtube" && r.value.streams == Catalog("youtube")[4..]
    ensures var r := Analyze(Some(url), None, None, Some("9999p"));
      r.Ok? && r.value.streams == Catalog("youtube")
    ensures var r := Analyze(Some(url), None, Some("mp4"), Some("720p"));
      r.Ok? && r.value.streams == [Catalog("youtube")[1]]
  {
    DetectShortLink(url);
    SelectMp3("youtube");
    SelectFallbackExamples("youtube");
    SelectMp4At720p("youtube");
  }

  // GET /api/download?id=

  /** The headers and body of a successful download reply. */
  datatype DownloadReply = DownloadReply(contentDisposition: string, contentType: string, body: string)

  const AttachmentPrefix: string := "attachment; filename=\""

  /** The file name a `Content-Disposition: attachment; filename="..."` header announces. */
  function AttachmentFilename(header: string): Option<string> {
    if AttachmentPrefix <= header && |header| > |AttachmentPrefix| && header[|header| - 1] == '"'
    then Some(header[|AttachmentPrefix|..|header| - 1])
    else None
  }

  /**
   * The download handler: any non-empty id is accepted and answered with a
   * text attachment named after it.
   */
  function Download(id: Option<string>): (r: Result<DownloadReply>)
    ensures r.Err? <==> Falsy(id)
    ensures r.Err? ==> r.msg == "Missing id"
    ensures r.Ok? ==> AttachmentFilename(r.value.contentDisposition) == Some(id.value + ".txt")
    ensures r.Ok? ==> r.value.contentType == "text/plain" && Contains(r.value.body, id.value)
  {
    if Falsy(id) then Err("Missing id")
    else
      var header := AttachmentPrefix + id.value + ".txt\"";
      var body := "This simulates downloading stream: " + id.value + "\nReplace with real binary stream or redirect.";
      assert header[|AttachmentPrefix|..|header| - 1] == id.value + ".txt";
      ContainsInfix("This simulates downloading stream: ", id.value, "\nReplace with real binary stream or redirect.");
      Ok(DownloadReply(header, "text/plain", body))
  }

  /** A download of id `foo` is an attachment named `foo.txt`. */
  lemma DownloadExample()
    ensures var r := Download(Some("foo"));
      r.Ok? && r.value.contentDisposition == "attachment; filename=\"foo.txt\"" && Contains(r.value.body, "foo")
  {
  }
}
