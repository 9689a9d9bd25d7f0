/** What one poll of an asynchronous job decides: the reply is read into a raw status
    and an optional URL or message, and classified as still running, completed with a
    URL, or failed with a label. Two job families poll: videos (every 5 s) and
    `kling-image-o1` images (every 3 s). */
module Polling {
  import opened Wrappers
  import opened Text
  import opened Json

  datatype Verdict =
    | StillRunning
    | CompletedWith(url: string)
    | FailedWith(reason: string)

  // ---------------------------------------------------------------------
  // Video jobs

  const VideoSuccess: seq<string> := ["completed", "succeeded", "success", "done"]
  const VideoFailure: seq<string> := ["failed", "error", "rejected"]

  /** A video job completes when its lower-cased status is in the success set and a
      (non-empty) URL came with it, fails with `失败` when the status is in the failure
      set, and keeps polling otherwise. */
  function ClassifyVideo(rawStatus: string, url: Option<string>): (v: Verdict)
    ensures v.CompletedWith? <==> ToLower(rawStatus) in VideoSuccess && url.Some? && url.value != ""
    ensures v.CompletedWith? ==> v.url == url.value
    ensures v.FailedWith? <==> ToLower(rawStatus) in VideoFailure
    ensures v.FailedWith? ==> v.reason == "失败"
  {
    var s := ToLower(rawStatus);
    if s in VideoSuccess && url.Some? && url.value != "" then CompletedWith(url.value)
    else if s in VideoFailure then FailedWith("失败")
    else StillRunning
  }

  /** The status is compared after lower-casing, so its case never matters. */
  lemma VideoStatusCaseInsensitive(rawStatus: string, url: Option<string>)
    ensures ClassifyVideo(rawStatus, url) == ClassifyVideo(ToLower(rawStatus), url)
  {
    ToLowerIdempotent(rawStatus);
  }

  /** A success status that arrives without a URL neither completes nor fails the job:
      polling simply goes on. */
  lemma VideoSuccessWithoutUrlKeepsPolling(rawStatus: string, url: Option<string>)
    requires ToLower(rawStatus) in VideoSuccess
    requires url.None? || url.value == ""
    ensures ClassifyVideo(rawStatus, url) == StillRunning
  {
    assert ToLower(rawStatus) !in VideoFailure;
  }

  /** Fields read from a video status reply. */
  datatype VideoReply = VideoReply(status: string, url: Option<string>)

  /** The candidates for the status, in order: `data.status || data.state || data.data?.status || ''`. */
  function VideoStatusCandidates(d: Json): seq<Json>
  {
    [Get(d, "status"), Get(d, "state"), Get(Get(d, "data"), "status"), JStr("")]
  }

  /** The candidates for the URL, in order:
      `data.video_url || data.url || data.uri || data.data?.url || data.data?.video_url`. */
  function VideoUrlCandidates(d: Json): seq<Json>
  {
    [Get(d, "video_url"), Get(d, "url"), Get(d, "uri"), Get(Get(d, "data"), "url"), Get(Get(d, "data"), "video_url")]
  }

  /** The URL of a reply: its first truthy URL field, when that is a string. */
  function VideoUrl(d: Json): (r: Option<string>)
    ensures forall k :: FirstTruthyAt(VideoUrlCandidates(d), k) ==> r == TruthyText(VideoUrlCandidates(d)[k])
    ensures (forall k :: 0 <= k < 5 ==> !Truthy(VideoUrlCandidates(d)[k])) ==> r.None?
  {
    var c := VideoUrlCandidates(d);
    var u := FirstTruthy(c);
    assert forall k :: FirstTruthyAt(c, k) ==> u == c[k] by {
      forall k | FirstTruthyAt(c, k) ensures u == c[k] { FirstTruthyIs(c, k); }
    }
    TruthyText(u)
  }

  /** Reads a parsed reply. `None` is a reply the code throws on and the surrounding
      `catch` swallows: a `null` body (`data.status` on `null`), or a first truthy
      status that is not a string (`toLowerCase` is not a function). */
  function ReadVideoReply(d: Json): (r: Option<VideoReply>)
    ensures r.None? <==> d.JNull? || !FirstTruthy(VideoStatusCandidates(d)).JStr?
    ensures r.Some? ==> (r.value.status != "" <==> exists k :: 0 <= k < 3 && Truthy(VideoStatusCandidates(d)[k]))
    ensures r.Some? ==> forall k :: FirstTruthyAt(VideoUrlCandidates(d), k) ==>
                          r.value.url == TruthyText(VideoUrlCandidates(d)[k])
    ensures r.Some? && (forall k :: 0 <= k < 5 ==> !Truthy(VideoUrlCandidates(d)[k])) ==> r.value.url.None?
  {
    if d.JNull? then None
    else
      var st := FirstTruthy(VideoStatusCandidates(d));
      if !st.JStr? then None
      else
        Some(VideoReply(st.s, VideoUrl(d)))
  }

  /** `status` is read before `state`, which is read before `data.status`. */
  lemma VideoStatusFieldOrder(d: Json, s: string)
    requires !d.JNull? && s != ""
    requires Get(d, "status") == JStr(s)
             || (!Truthy(Get(d, "status")) && Get(d, "state") == JStr(s))
             || (!Truthy(Get(d, "status")) && !Truthy(Get(d, "state")) && Get(Get(d, "data"), "status") == JStr(s))
    ensures ReadVideoReply(d).Some? && ReadVideoReply(d).value.status == s
  {
    var c := VideoStatusCandidates(d);
    if c[0] == JStr(s) {
      FirstTruthyIs(c, 0);
    } else if c[1] == JStr(s) && !Truthy(c[0]) {
      FirstTruthyIs(c, 1);
    } else {
      FirstTruthyIs(c, 2);
    }
  }

  /** The decision one video poll reaches, `None` when the tick throws (a failed
      request or an unreadable body) and so changes nothing. */
  function VideoVerdict(reply: Option<Json>): (r: Option<Verdict>)
    ensures r.Some? <==> reply.Some? && ReadVideoReply(reply.value).Some?
    ensures r.Some? ==> r.value == ClassifyVideo(ReadVideoReply(reply.value).value.status,
                                                  ReadVideoReply(reply.value).value.url)
  {
    match reply
    case None => None
    case Some(d) =>
      (match ReadVideoReply(d)
       case None => None
       case Some(v) => Some(ClassifyVideo(v.status, v.url)))
  }

  /** A reply whose status field says success and whose first truthy URL field is a
      string completes the job with that URL, whatever case the status is in. */
  lemma VideoCompletes(d: Json, status: string, k: int, url: string)
    requires Get(d, "status") == JStr(status) && ToLower(status) in VideoSuccess
    requires FirstTruthyAt(VideoUrlCandidates(d), k) && VideoUrlCandidates(d)[k] == JStr(url)
    ensures VideoVerdict(Some(d)) == Some(CompletedWith(url))
  {
    VideoStatusFieldOrder(d, status);
  }

  // ---------------------------------------------------------------------
  // Omni-image jobs

  /** `succeed` always ends the job: completed with the first image's URL when there
      is one, failed with `无图` otherwise. `failed` ends it with the task's message, or
      `失败` without one. Every other status keeps polling. */
  function ClassifyKling(status: string, imageUrl: Option<string>, message: Option<string>): (v: Verdict)
    ensures status == "succeed" ==> v.CompletedWith? || v == FailedWith("无图")
    ensures v.CompletedWith? <==> status == "succeed" && imageUrl.Some? && imageUrl.value != ""
    ensures v.CompletedWith? ==> v.url == imageUrl.value
    ensures status == "failed" ==> v == FailedWith(if message.Some? && message.value != "" then message.value else "失败")
    ensures v == StillRunning <==> status != "succeed" && status != "failed"
  {
    if status == "succeed" then
      if imageUrl.Some? && imageUrl.value != "" then CompletedWith(imageUrl.value) else FailedWith("无图")
    else if status == "failed" then
      FailedWith(if message.Some? && message.value != "" then message.value else "失败")
    else StillRunning
  }

  /** `images && images.length > 0 ? images[0].url : null`. `None` when it throws: the
      first image is `null`. */
  function FirstImageUrl(images: Json): (r: Option<Json>)
    ensures r.None? <==> images.JArr? && |images.items| > 0 && images.items[0].JNull?
    ensures images.JArr? && |images.items| > 0 && !images.items[0].JNull? ==>
              r == Some(Get(images.items[0], "url"))
    ensures !images.JArr? || |images.items| == 0 ==> r == Some(JNull)
  {
    match images
    case JArr(items) =>
      if |items| == 0 then Some(JNull)
      else if items[0].JNull? then None
      else Some(Get(items[0], "url"))
    case _ => Some(JNull)  // a string's character or any other value has no `url`
  }

  /** `data.data?.task_status || ''`: a non-string status never equals `succeed` or
      `failed`, so it reads as the empty status here. */
  function KlingStatus(d: Json): (r: string)
    ensures Get(Get(d, "data"), "task_status").JStr? ==> r == Get(Get(d, "data"), "task_status").s
    ensures r != "" ==> Get(Get(d, "data"), "task_status") == JStr(r)
  {
    var st := Get(Get(d, "data"), "task_status");
    if st.JStr? then st.s else ""
  }

  /** `data.data?.task_result?.images` */
  function KlingImages(d: Json): Json
  {
    Get(Get(Get(d, "data"), "task_result"), "images")
  }

  /** `data.data?.task_status_msg` */
  function KlingMessage(d: Json): Json
  {
    Get(Get(d, "data"), "task_status_msg")
  }

  /** The decision one omni-image poll reaches; `None` when the tick throws: a failed
      request, a `null` body, or a `null` first image of a succeeded task. */
  function KlingVerdict(reply: Option<Json>): (r: Option<Verdict>)
    ensures reply.None? || reply == Some(JNull) ==> r.None?
    ensures reply.Some? && !reply.value.JNull? ==>
              (r.None? <==> KlingStatus(reply.value) == "succeed" && FirstImageUrl(KlingImages(reply.value)).None?)
    ensures r.Some? ==> r.value == ClassifyKling(KlingStatus(reply.value),
                                                  TruthyText(FirstImageUrl(KlingImages(reply.value)).GetOr(JNull)),
                                                  TruthyText(KlingMessage(reply.value)))
  {
    match reply
    case None => None
    case Some(d) =>
      if d.JNull? then None
      else
        var inner := Get(d, "data");
        var status := KlingStatus(d);
        if status == "succeed" then
          (match FirstImageUrl(Get(Get(inner, "task_result"), "images"))
           case None => None
           case Some(u) => Some(ClassifyKling(status, TruthyText(u), None)))
        else Some(ClassifyKling(status, None, TruthyText(Get(inner, "task_status_msg"))))
  }

  /** A succeeded task whose first image has a string URL completes with that URL. */
  lemma KlingCompletes(d: Json, items: seq<Json>, url: string)
    requires Get(Get(d, "data"), "task_status") == JStr("succeed")
    requires KlingImages(d) == JArr(items) && |items| > 0
    requires Get(items[0], "url") == JStr(url) && url != ""
    ensures KlingVerdict(Some(d)) == Some(CompletedWith(url))
  {
  }

  /** A succeeded task without a first image URL fails with `无图`, unless its first
      image is `null`, which throws. */
  lemma KlingWithoutImage(d: Json)
    requires Get(Get(d, "data"), "task_status") == JStr("succeed")
    requires FirstImageUrl(KlingImages(d)).Some? && !Truthy(FirstImageUrl(KlingImages(d)).value)
    ensures KlingVerdict(Some(d)) == Some(FailedWith("无图"))
  {
  }

  /** A failed task fails with its message when that is a non-empty string, and with
      `失败` otherwise. */
  lemma KlingFails(d: Json)
    requires Get(Get(d, "data"), "task_status") == JStr("failed")
    ensures KlingVerdict(Some(d)) ==
            Some(FailedWith(if KlingMessage(d).JStr? && KlingMessage(d).s != "" then KlingMessage(d).s else "失败"))
  {
  }

  /** Any other status, including a missing or non-string one, keeps polling. */
  lemma KlingOtherStatusKeepsPolling(d: Json)
    requires !d.JNull?
    requires Get(Get(d, "data"), "task_status") != JStr("succeed")
    requires Get(Get(d, "data"), "task_status") != JStr("failed")
    ensures KlingVerdict(Some(d)) == Some(StillRunning)
  {
  }

  // ---------------------------------------------------------------------
  // Elapsed time

  /** `Math.round(ms / 1000)`: the nearest whole second, halves rounded up. */
  function RoundSeconds(ms: int): (n: int)
    ensures 1000 * n - 500 <= ms < 1000 * n + 500
  {
    (ms + 500) / 1000
  }
}
