/** The pure part of `getVideoInfo` in api/video-info.ts and
    server/youtube.ts: from the video catalog's reply to the record the
    client shows.  The HTTP request itself is left out; its outcome is the
    `CatalogReply` parameter. */
module Catalog {
  import opened Wrappers
  import opened Duration

  datatype Thumbnail = Thumbnail(url: string)
  /** The thumbnail sizes the code reads; either may be absent. */
  datatype Thumbnails = Thumbnails(high: Option<Thumbnail>, default: Option<Thumbnail>)
  datatype Snippet = Snippet(title: string, thumbnails: Thumbnails, channelTitle: string)
  datatype ContentDetails = ContentDetails(duration: string)
  /** Counts arrive as decimal strings and may be absent. */
  datatype Statistics = Statistics(viewCount: Option<string>, likeCount: Option<string>)
  /** One catalog entry; `statistics` is requested only by api/video-info.ts. */
  datatype Item = Item(snippet: Snippet, contentDetails: ContentDetails, statistics: Option<Statistics>)

  /** The HTTP outcome: a rejection (of `fetch`, or of `response.json()` on
      an OK response), a non-OK status with its text, or the decoded body,
      whose `items` list may be missing. */
  datatype CatalogReply =
    | Rejected(rejection: Thrown)
    | HttpError(statusText: string)
    | Ok(items: Option<seq<Item>>)

  /** The record built by api/video-info.ts; the thumbnail is `undefined`
      when neither size yields one. */
  datatype VideoInfo = VideoInfo(title: string, thumbnail: Option<string>, duration: string,
                                 channelTitle: string, viewCount: string, likeCount: string)

  /** The record built by server/youtube.ts: the same without the counts. */
  datatype BasicInfo = BasicInfo(title: string, thumbnail: Option<string>, duration: string,
                                 channelTitle: string)

  const NotFoundMessage: string := "Video not found"
  const ApiErrorPrefix: string := "YouTube API error: "

  /** `high?.url || default?.url`: the high-resolution URL when it is a
      non-empty string, otherwise whatever the default size has. */
  function PickThumbnail(t: Thumbnails): (u: Option<string>)
    ensures t.high.Some? && t.high.value.url != [] ==> u == Some(t.high.value.url)
    ensures !(t.high.Some? && t.high.value.url != []) && t.default.Some?
            ==> u == Some(t.default.value.url)
    ensures u.None? <==> (t.high.None? || t.high.value.url == []) && t.default.None?
  {
    if t.high.Some? && t.high.value.url != [] then Some(t.high.value.url)
    else if t.default.Some? then Some(t.default.value.url)
    else None
  }

  /** `count || '0'`: a missing or empty count reads as "0". */
  function CountOrZero(c: Option<string>): (r: string)
    ensures r != []
    ensures c.Some? && c.value != [] ==> r == c.value
    ensures c.None? || c.value == [] ==> r == "0"
  {
    if c.Some? && c.value != [] then c.value else "0"
  }

  /** The entry the record is built from, or the error thrown before that:
      a rejected or failed request, or a missing or empty `items` list. */
  function FirstItem(reply: CatalogReply): (r: Result<Item, Thrown>)
    ensures reply.Rejected? ==> r == Failure(reply.rejection)
    ensures reply.HttpError? ==> r == Failure(ErrorThrown(ApiErrorPrefix + reply.statusText))
    ensures reply.Ok? ==>
              (r == Failure(ErrorThrown(NotFoundMessage))
               <==> reply.items.None? || |reply.items.value| == 0)
    ensures r.Success? <==> reply.Ok? && reply.items.Some? && |reply.items.value| > 0
    ensures r.Success? ==> r.value == reply.items.value[0]
  {
    match reply
    case Rejected(e) => Failure(e)
    case HttpError(status) => Failure(ErrorThrown(ApiErrorPrefix + status))
    case Ok(None) => Failure(ErrorThrown(NotFoundMessage))
    case Ok(Some(items)) =>
      if |items| == 0 then Failure(ErrorThrown(NotFoundMessage)) else Success(items[0])
  }

  /** The fields both copies build from the snippet and content details. */
  function Basic(item: Item): (b: BasicInfo)
    ensures b.title == item.snippet.title && b.channelTitle == item.snippet.channelTitle
    ensures b.thumbnail == PickThumbnail(item.snippet.thumbnails)
    ensures b.duration == ParseDuration(item.contentDetails.duration)
    ensures ClockShape(b.duration)
  {
    BasicInfo(item.snippet.title, PickThumbnail(item.snippet.thumbnails),
              ParseDuration(item.contentDetails.duration), item.snippet.channelTitle)
  }

  /** `getVideoInfo` of server/youtube.ts. */
  function ServerGetVideoInfo(reply: CatalogReply): (r: Result<BasicInfo, Thrown>)
    ensures r.Success? <==> FirstItem(reply).Success?
    ensures r.Failure? ==> r.error == FirstItem(reply).error
    ensures r.Success? ==> r.value == Basic(FirstItem(reply).value)
  {
    match FirstItem(reply)
    case Failure(e) => Failure(e)
    case Success(item) => Success(Basic(item))
  }

  /** `getVideoInfo` of api/video-info.ts: the same record plus the two
      counts; an entry without `statistics` makes reading `viewCount` throw. */
  function ApiGetVideoInfo(reply: CatalogReply): (r: Result<VideoInfo, Thrown>)
    ensures FirstItem(reply).Failure? ==> r == Failure(FirstItem(reply).error)
    ensures FirstItem(reply).Success? && FirstItem(reply).value.statistics.None?
            ==> r == Failure(UndefinedRead("viewCount"))
    ensures r.Success? <==> FirstItem(reply).Success? && FirstItem(reply).value.statistics.Some?
    ensures r.Success? ==>
              var item := FirstItem(reply).value;
              && r.value.title == item.snippet.title
              && r.value.channelTitle == item.snippet.channelTitle
              && r.value.thumbnail == PickThumbnail(item.snippet.thumbnails)
              && r.value.duration == ParseDuration(item.contentDetails.duration)
              && r.value.viewCount == CountOrZero(item.statistics.value.viewCount)
              && r.value.likeCount == CountOrZero(item.statistics.value.likeCount)
  {
    match FirstItem(reply)
    case Failure(e) => Failure(e)
    case Success(item) =>
      match item.statistics
      case None => Failure(UndefinedRead("viewCount"))
      case Some(stats) =>
        var b := Basic(item);
        Success(VideoInfo(b.title, b.thumbnail, b.duration, b.channelTitle,
                          CountOrZero(stats.viewCount), CountOrZero(stats.likeCount)))
  }

  /** Dropping the counts from an api/video-info.ts record. */
  function Project(v: VideoInfo): BasicInfo {
    BasicInfo(v.title, v.thumbnail, v.duration, v.channelTitle)
  }

  /** The two copies agree wherever the api copy succeeds, and fail alike
      wherever the server copy fails: the api record is the server record
      with the counts added. */
  lemma CopiesAgree(reply: CatalogReply)
    ensures ApiGetVideoInfo(reply).Success? ==>
              ServerGetVideoInfo(reply).Success?
              && Project(ApiGetVideoInfo(reply).value) == ServerGetVideoInfo(reply).value
    ensures ServerGetVideoInfo(reply).Failure?
            ==> ApiGetVideoInfo(reply) == Failure(ServerGetVideoInfo(reply).error)
  {
  }

  /** Only the first entry is read: entries after it never change the
      outcome of either copy. */
  lemma OnlyFirstItemMatters(first: Item, rest: seq<Item>, rest': seq<Item>)
    ensures ApiGetVideoInfo(Ok(Some([first] + rest))) == ApiGetVideoInfo(Ok(Some([first] + rest')))
    ensures ServerGetVideoInfo(Ok(Some([first] + rest))) == ServerGetVideoInfo(Ok(Some([first] + rest')))
  {
    assert ([first] + rest)[0] == first;
    assert ([first] + rest')[0] == first;
  }

  /** The counts are copied unchanged when present and non-empty, and are
      "0" otherwise. */
  lemma CountsDefault(reply: CatalogReply)
    requires ApiGetVideoInfo(reply).Success?
    ensures var stats := reply.items.value[0].statistics.value;
            var v := ApiGetVideoInfo(reply).value;
            && (v.viewCount == "0" <==> stats.viewCount.None? || stats.viewCount.value in {[], "0"})
            && (v.likeCount == "0" <==> stats.likeCount.None? || stats.likeCount.value in {[], "0"})
            && (stats.viewCount.Some? && stats.viewCount.value != [] ==> v.viewCount == stats.viewCount.value)
            && (stats.likeCount.Some? && stats.likeCount.value != [] ==> v.likeCount == stats.likeCount.value)
  {
  }
}
