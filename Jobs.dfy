/** Starting a batch of generation jobs: one `loading` placeholder per requested
    output, created in a counted loop and put in front of the list. */
module Batches {
  import opened Wrappers
  import opened Assets
  import opened Catalog
  import opened Gallery

  /** `overrideConfig ? 1 : generationCount`: a retry from a stored config makes one job. */
  function BatchSize(isRetry: bool, generationCount: nat): nat
  {
    if isRetry then 1 else generationCount
  }

  /** A video placeholder needs its model's name and option text; for an unknown
      model or option the lookup throws before any placeholder is shown. `cat` is the
      catalogue the lookups search; the page uses `Catalog.Listed`. */
  predicate CanLabel(cat: Catalogue, job: JobConfig)
  {
    job.ImageJob? || VideoLabels(cat.videos, job.modelId, job.optionIdx).Some?
  }

  /** The placeholder with id `id` for `job`, created at `startTime`. */
  function Placeholder(cat: Catalogue, id: string, job: JobConfig, startTime: int): (r: Option<Asset>)
    ensures r.Some? <==> CanLabel(cat, job)
    ensures r.Some? ==> r.value.id == id && r.value.status == Loading && r.value.url == ""
                        && r.value.timestamp == Some(startTime) && r.value.config == job
    ensures r.Some? ==> r.value.prompt == job.prompt && r.value.modelId == job.ModelId()
                        && (r.value.kind == Video <==> job.VideoJob?)
    ensures r.Some? && job.ImageJob? ==>
              r.value.modelName == ImageModelName(cat.images, job.modelId) && r.value.durationText == job.imageSize
    ensures r.Some? && job.VideoJob? ==>
              (r.value.modelName, r.value.durationText) == VideoLabels(cat.videos, job.modelId, job.optionIdx).value
  {
    match job
    case ImageJob(m, _, size, prompt, _) =>
      Some(Asset(id, "", Image, prompt, ImageModelName(cat.images, m), size, GeneratingLabel, m,
                 Some(startTime), Loading, None, job))
    case VideoJob(m, _, idx, prompt, _) =>
      (match VideoLabels(cat.videos, m, idx)
       case Some(labels) =>
         Some(Asset(id, "", Video, prompt, labels.0, labels.1, GeneratingLabel, m,
                    Some(startTime), Loading, None, job))
       case None => None)
  }

  /** The `for (let i = 0; i < count; i++) placeholders.push(...)` loop, one fresh id per
      iteration. `None` is the throw of the first iteration when the job cannot be labelled. */
  method CreatePlaceholders(cat: Catalogue, ids: seq<string>, job: JobConfig, startTime: int) returns (r: Option<seq<Asset>>)
    ensures r.Some? <==> |ids| == 0 || CanLabel(cat, job)
    ensures r.Some? ==> |r.value| == |ids|
    ensures r.Some? ==> forall k :: 0 <= k < |ids| ==> Placeholder(cat, ids[k], job, startTime) == Some(r.value[k])
  {
    var ps: seq<Asset> := [];
    var i := 0;
    while i < |ids|
      invariant 0 <= i <= |ids|
      invariant |ps| == i
      invariant forall k :: 0 <= k < i ==> Placeholder(cat, ids[k], job, startTime) == Some(ps[k])
    {
      var p := Placeholder(cat, ids[i], job, startTime);
      if p.None? {
        return None;
      }
      ps := ps + [p.value];
      i := i + 1;
    }
    assert |ids| > 0 ==> Placeholder(cat, ids[0], job, startTime).Some?;
    return Some(ps);
  }

  predicate DistinctStrings(ids: seq<string>)
  {
    forall i, j :: 0 <= i < j < |ids| ==> ids[i] != ids[j]
  }

  datatype BatchResult = NoPrompt | Threw | Started(placeholders: seq<Asset>)

  /** Start a batch: refuse an empty prompt, create the placeholders and prepend them in
      creation order. The store is not touched: a placeholder is saved only once its job
      is accepted or done. */
  method StartBatch(cat: Catalogue, g: Gallery, isRetry: bool, generationCount: nat, ids: seq<string>, job: JobConfig, startTime: int)
    returns (res: BatchResult, g': Gallery)
    requires |ids| == BatchSize(isRetry, generationCount)
    ensures job.prompt == "" ==> res == NoPrompt
    ensures res.Started? <==> job.prompt != "" && (|ids| == 0 || CanLabel(cat, job))
    ensures !res.Started? ==> g' == g
    ensures res.Started? ==> g' == g.(shown := res.placeholders + g.shown)
    ensures res.Started? ==> |res.placeholders| == BatchSize(isRetry, generationCount)
    ensures res.Started? ==> forall k :: 0 <= k < |ids| ==>
              var a := res.placeholders[k];
              a.id == ids[k] && a.status == Loading && a.url == "" && a.timestamp == Some(startTime)
    ensures res.Started? ==> forall k :: 0 <= k < |ids| ==>
              Placeholder(cat, ids[k], job, startTime) == Some(res.placeholders[k])
    ensures Valid(g) && DistinctStrings(ids) && (forall k :: 0 <= k < |ids| ==> ids[k] !in Ids(g.shown))
            ==> Valid(g')
  {
    if job.prompt == "" {
      return NoPrompt, g;
    }
    var ps := CreatePlaceholders(cat, ids, job, startTime);
    if ps.None? {
      return Threw, g;
    }
    res := Started(ps.value);
    g' := g.(shown := ps.value + g.shown);
    forall k | 0 <= k < |ids| ensures ps.value[k].id == ids[k] {
      assert Placeholder(cat, ids[k], job, startTime) == Some(ps.value[k]);
    }
    if Valid(g) && DistinctStrings(ids) && (forall k :: 0 <= k < |ids| ==> ids[k] !in Ids(g.shown)) {
      var all := ps.value + g.shown;
      forall i, j | 0 <= i < j < |all| ensures all[i].id != all[j].id {
        if j < |ids| {
        } else if i < |ids| {
          assert all[j] in g.shown;
        }
      }
    }
  }
}

/** A running poll of one job: the `setInterval` whose callback asks the provider for
    the job's status and is cleared once the job ends. */
module PollLoops {
  import opened Wrappers
  import opened Text
  import opened Json
  import opened Assets
  import opened Resume
  import opened Gallery
  import Polling
  import Catalog

  /** The decision a poll of `family` reaches on `reply`; `None` when the tick throws. */
  function VerdictFor(family: PollFamily, reply: Option<Json>): (r: Option<Polling.Verdict>)
    ensures r.Some? && r.value.CompletedWith? ==> r.value.url != ""
    ensures family.KlingImageFamily? ==> r == Polling.KlingVerdict(reply)
    ensures family.VideoFamily? ==> r == Polling.VideoVerdict(reply)
  {
    match family
    case VideoFamily(_) => Polling.VideoVerdict(reply)
    case KlingImageFamily => Polling.KlingVerdict(reply)
  }

  /** `${Math.round((finishTime - startTime) / 1000)}s`; a resumed job without a start
      time shows `NaNs`. */
  function ElapsedLabel(startTime: Option<int>, now: int): (r: TimeLabel)
    ensures startTime.None? ==> r == Text("NaNs")
    ensures startTime.Some? ==> r.Seconds? && 1000 * r.n - 500 <= now - startTime.value < 1000 * r.n + 500
  {
    match startTime
    case Some(t) => Seconds(Polling.RoundSeconds(now - t))
    case None => Text("NaNs")
  }

  /** The request path a poll of this job uses: it names the task at its end, and it
      goes to the omni-image API exactly for omni-image jobs. */
  function PollPath(family: PollFamily, taskId: string): (r: string)
    ensures |r| > |taskId| && r[|r| - |taskId|..] == taskId
    ensures family.KlingImageFamily? <==> StartsWith(r, "/kling/")
    ensures family.VideoFamily? ==> r == Catalog.VideoQueryPath(family.modelId, taskId)
  {
    match family
    case VideoFamily(m) =>
      var r := Catalog.VideoQueryPath(m, taskId);
      assert r[1] == 'v';
      DiffersAt(r, "/kling/", 1);
      r
    case KlingImageFamily =>
      var r := "/kling/v1/images/omni-image/" + taskId;
      assert r[..7] == "/kling/";
      assert r[|r| - |taskId|..] == taskId;
      r
  }

  class PollLoop {
    const family: PollFamily
    const taskId: Option<string>
    const assetId: string
    const startTime: Option<int>
    /** Whether the interval is still set. */
    var running: bool

    constructor (family: PollFamily, taskId: Option<string>, assetId: string, startTime: Option<int>)
      ensures this.family == family && this.taskId == taskId
      ensures this.assetId == assetId && this.startTime == startTime
      ensures running
    {
      this.family := family;
      this.taskId := taskId;
      this.assetId := assetId;
      this.startTime := startTime;
      running := true;
    }

    /** One tick at time `now` with API key `apiKey` (empty when none is configured)
        and the parsed reply (`None` when the request or the parse throws). Without a
        key or a task id the interval is cleared at once; a decision other than "still
        running" is applied to the state and clears the interval; a tick that throws
        changes nothing and the interval goes on. */
    method Tick(apiKey: string, reply: Option<Json>, now: int, g: Gallery) returns (g': Gallery)
      modifies this
      ensures !old(running) ==> g' == g && !running
      ensures old(running) && (apiKey == "" || taskId.None? || taskId.value == "") ==> g' == g && !running
      ensures old(running) && apiKey != "" && taskId.Some? && taskId.value != "" ==>
                match VerdictFor(family, reply)
                case None => g' == g && running
                case Some(v) =>
                  g' == Apply(g, PollDone(assetId, family, v, ElapsedLabel(startTime, now)))
                  && (running <==> v == Polling.StillRunning)
      ensures Valid(g) && Unfinished(g, assetId) ==> Valid(g')
    {
      if !running {
        return g;
      }
      if apiKey == "" || taskId.None? || taskId.value == "" {
        running := false;
        return g;
      }
      var v := VerdictFor(family, reply);
      if v.None? {
        return g;
      }
      var step := PollDone(assetId, family, v.value, ElapsedLabel(startTime, now));
      if Valid(g) && Unfinished(g, assetId) {
        StepPreservesValid(g, step);
      }
      g' := Apply(g, step);
      if v.value != Polling.StillRunning {
        running := false;
      }
    }
  }

  /** Once a poll has applied a decision, it never changes the state again: every later
      tick finds the interval cleared. */
  method TickTwice(loop: PollLoop, apiKey: string, r1: Option<Json>, r2: Option<Json>, now: int, g: Gallery)
    returns (g2: Gallery)
    requires loop.running && apiKey != "" && loop.taskId.Some? && loop.taskId.value != ""
    requires VerdictFor(loop.family, r1).Some? && VerdictFor(loop.family, r1).value != Polling.StillRunning
    modifies loop
    ensures g2 == Apply(g, PollDone(loop.assetId, loop.family, VerdictFor(loop.family, r1).value,
                                    ElapsedLabel(loop.startTime, now)))
    ensures !loop.running
  {
    var g1 := loop.Tick(apiKey, r1, now, g);
    g2 := loop.Tick(apiKey, r2, now, g1);
  }
}

/** How a submitted job's first reply, or a synchronous job's reply, turns into a step. */
module Dispatch {
  import opened Wrappers
  import opened Text
  import opened Json
  import opened Assets
  import opened Catalog
  import opened Gallery
  import opened Extractor
  import ExtractorFacts
  import opened Resume
  import PollLoops

  // ---------------------------------------------------------------------
  // Submissions of asynchronous jobs

  /** The candidates for a video task id, in order: `data.id || data.data?.id || data.task_id || data.taskId`. */
  function VideoIdCandidates(d: Json): seq<Json>
  {
    [Get(d, "id"), Get(Get(d, "data"), "id"), Get(d, "task_id"), Get(d, "taskId")]
  }

  /** The task id of a video submission: its first truthy id field, when that is a string. */
  function VideoTaskId(d: Json): (r: Option<string>)
    ensures r.Some? ==> r.value != ""
    ensures forall k :: FirstTruthyAt(VideoIdCandidates(d), k) ==> r == TruthyText(VideoIdCandidates(d)[k])
    ensures (forall k :: 0 <= k < 4 ==> !Truthy(VideoIdCandidates(d)[k])) ==> r.None?
  {
    var c := VideoIdCandidates(d);
    var t := FirstTruthy(c);
    assert forall k :: FirstTruthyAt(c, k) ==> t == c[k] by {
      forall k | FirstTruthyAt(c, k) ensures t == c[k] { FirstTruthyIs(c, k); }
    }
    TruthyText(t)
  }

  /** The reply to a video submission. A non-OK response, a reply that cannot be parsed
      and a `null` body all throw outside any `catch`: the placeholder stays `loading`
      and no step happens. Otherwise the job is accepted, with whatever task id came back. */
  function VideoSubmitted(p: Asset, ok: bool, reply: Option<Json>): Option<Step>
  {
    if !ok || reply.None? || reply.value.JNull? then None
    else Some(Accept(p, VideoTaskId(reply.value)))
  }

  /** The reply to an omni-image submission: accepted when `code` is 0 and a task id came
      back, rejected (`请求失败`) otherwise, including when the request itself throws. */
  function KlingSubmitted(p: Asset, reply: Option<Json>): (r: Step)
    ensures r.Accept? <==> reply.Some? && !reply.value.JNull? && Get(reply.value, "code") == JNum(0.0)
                           && TruthyText(Get(Get(reply.value, "data"), "task_id")).Some?
    ensures r.Accept? ==> r.placeholder == p && r.taskId.Some? && r.taskId.value != ""
    ensures r.Reject? ==> r.id == p.id
    ensures r.Accept? || r.Reject?
  {
    if reply.None? || reply.value.JNull? || Get(reply.value, "code") != JNum(0.0) then Reject(p.id)
    else
      match TruthyText(Get(Get(reply.value, "data"), "task_id"))
      case Some(t) => Accept(p, Some(t))
      case None => Reject(p.id)
  }

  /** A video submission's reply handled in full: an accepted job is shown and saved as
      `queued`, and polling starts for the task id that came back, with the job's model,
      id and start time (the start time the placeholder was stamped with). */
  method SubmitVideo(p: Asset, ok: bool, reply: Option<Json>, g: Gallery) returns (g': Gallery, loop: PollLoops.PollLoop?)
    ensures VideoSubmitted(p, ok, reply).None? ==> g' == g && loop == null
    ensures VideoSubmitted(p, ok, reply).Some? ==>
              g' == Apply(g, Accept(p, VideoTaskId(reply.value)))
              && loop != null && fresh(loop) && loop.running
              && loop.family == VideoFamily(p.modelId) && loop.taskId == VideoTaskId(reply.value)
              && loop.assetId == p.id && loop.startTime == p.timestamp
    ensures VideoSubmitted(p, ok, reply).Some? ==> Unfinished(g', p.id)
    ensures Valid(g) && p.url == "" ==> Valid(g')
  {
    var step := VideoSubmitted(p, ok, reply);
    if step.None? {
      return g, null;
    }
    AcceptQueues(g, p, VideoTaskId(reply.value));
    if Valid(g) && p.url == "" {
      StepPreservesValid(g, step.value);
    }
    g' := Apply(g, step.value);
    loop := new PollLoops.PollLoop(VideoFamily(p.modelId), VideoTaskId(reply.value), p.id, p.timestamp);
  }

  /** A video job accepted without any task id is saved as `queued`, and its poll stops
      on its first tick without changing anything: the job stays `queued`. */
  method AcceptedWithoutIdStays(p: Asset, reply: Json, g: Gallery, apiKey: string, pollReply: Option<Json>, now: int)
    returns (g': Gallery, loop: PollLoops.PollLoop)
    requires !reply.JNull? && VideoTaskId(reply).None?
    ensures g' == Apply(g, Accept(p, None))
    ensures !loop.running
    ensures p.id in g'.store && g'.store[p.id].status == Queued
    ensures forall k :: 0 <= k < |g'.shown| && g'.shown[k].id == p.id ==> g'.shown[k].status == Queued
  {
    var g1, l := SubmitVideo(p, true, Some(reply), g);
    loop := l;
    g' := loop.Tick(apiKey, pollReply, now, g1);
    AcceptQueues(g, p, None);
  }

  /** Acceptance shows and stores the job as `queued` under its own id. */
  lemma AcceptQueues(g: Gallery, p: Asset, taskId: Option<string>)
    ensures p.id in Apply(g, Accept(p, taskId)).store
    ensures Apply(g, Accept(p, taskId)).store[p.id] == AsQueued(p, taskId)
    ensures forall k :: 0 <= k < |Apply(g, Accept(p, taskId)).shown| && Apply(g, Accept(p, taskId)).shown[k].id == p.id ==>
              Apply(g, Accept(p, taskId)).shown[k] == AsQueued(p, taskId)
  {
  }

  /** An omni-image submission's reply handled in full: an accepted job is shown and saved
      as `queued` and its poll starts with the task id; a rejected one is marked failed
      on screen and nothing polls. */
  method SubmitKling(p: Asset, reply: Option<Json>, g: Gallery) returns (g': Gallery, loop: PollLoops.PollLoop?)
    ensures g' == Apply(g, KlingSubmitted(p, reply))
    ensures KlingSubmitted(p, reply).Reject? ==> loop == null
    ensures KlingSubmitted(p, reply).Accept? ==>
              loop != null && fresh(loop) && loop.running
              && loop.family == KlingImageFamily && loop.taskId == KlingSubmitted(p, reply).taskId
              && loop.assetId == p.id && loop.startTime == p.timestamp
    ensures KlingSubmitted(p, reply).Accept? ==> Unfinished(g', p.id)
    ensures Valid(g) && p.url == "" && Unfinished(g, p.id) ==> Valid(g')
  {
    var step := KlingSubmitted(p, reply);
    if step.Accept? {
      AcceptQueues(g, p, step.taskId);
    }
    if Valid(g) && p.url == "" && Unfinished(g, p.id) {
      StepPreservesValid(g, step);
    }
    g' := Apply(g, step);
    if step.Reject? {
      return g', null;
    }
    loop := new PollLoops.PollLoop(KlingImageFamily, step.taskId, p.id, p.timestamp);
  }

  // ---------------------------------------------------------------------
  // Synchronous image jobs

  /** `v?.[0]`. */
  function Index0(j: Json): Json
  {
    match j
    case JArr(items) => if |items| > 0 then items[0] else JNull
    case JStr(s) => if |s| > 0 then JStr([s[0]]) else JNull
    case JObj(_) => Get(j, "0")
    case _ => JNull
  }

  /** `findImageUrlInObject(data) || findImageUrlInObject(data.choices?.[0]?.message?.content) || ''`. */
  function ChatUrl(d: Json): (r: string)
    ensures r == "" || (IsMediaRef(r) && r != [])
    ensures Find(d).Some? ==> r == Find(d).value
  {
    match Find(d)
    case Some(u) => u
    case None => Find(Get(Get(Index0(Get(d, "choices")), "message"), "content")).GetOr("")
  }

  /** The second lookup never finds anything the first missed: the whole-reply search
      already visits `choices[0].message.content`. */
  lemma ChatContentLookupRedundant(d: Json)
    ensures ChatUrl(d) == Find(d).GetOr("")
  {
    if Find(d).None? {
      var choices := Get(d, "choices");
      ExtractorFacts.NothingInsideGet(d, "choices");
      var first := Index0(choices);
      assert Find(first).None? || choices.JStr? by {
        match choices
        case JArr(items) =>
          if |items| > 0 {
            ExtractorFacts.NothingInside(choices);
          }
        case JObj(_) =>
          ExtractorFacts.NothingInsideGet(choices, "0");
        case _ =>
      }
      if choices.JStr? {
        assert Get(first, "message") == JNull;
      } else {
        ExtractorFacts.NothingInsideGet(first, "message");
      }
      ExtractorFacts.NothingInsideGet(Get(first, "message"), "content");
    }
  }

  /** Result of `parts.find(p => p.inlineData || p.inline_data)`, followed by
      `part.inlineData || part.inline_data` on the part found. */
  datatype Search = Throws | NotFound | Found(data: Json)

  /** `p.inlineData || p.inline_data` */
  function InlineOf(p: Json): Json
  {
    FirstTruthy([Get(p, "inlineData"), Get(p, "inline_data")])
  }

  /** `find` passes every part before `k`: each is non-null and holds no inline data. */
  ghost predicate PassedBefore(parts: seq<Json>, k: int)
  {
    0 <= k <= |parts| && forall m :: 0 <= m < k ==> !parts[m].JNull? && !Truthy(InlineOf(parts[m]))
  }

  function FindInline(parts: seq<Json>): (r: Search)
    ensures r.Found? ==> exists k :: PassedBefore(parts, k) && k < |parts| && !parts[k].JNull?
                                     && r.data == InlineOf(parts[k]) && Truthy(r.data)
    ensures r.Throws? ==> exists k :: PassedBefore(parts, k) && k < |parts| && parts[k].JNull?
    ensures r.NotFound? ==> PassedBefore(parts, |parts|)
  {
    if parts == [] then NotFound
    else if parts[0].JNull? then
      assert PassedBefore(parts, 0);
      Throws  // `null.inlineData`
    else if Truthy(InlineOf(parts[0])) then
      assert PassedBefore(parts, 0);
      Found(InlineOf(parts[0]))
    else
      var r := FindInline(parts[1..]);
      assert forall k :: PassedBefore(parts[1..], k) ==> PassedBefore(parts, k + 1) by {
        forall k | PassedBefore(parts[1..], k) ensures PassedBefore(parts, k + 1) {
          assert forall m :: 1 <= m < k + 1 ==> parts[m] == parts[1..][m - 1];
        }
      }
      r
  }

  /** `data.candidates?.[0]?.content?.parts?.find(...)`: a missing list finds nothing, a
      value that is not a list has no `find` and throws. */
  function GeminiPart(d: Json): Search
  {
    if d.JNull? then Throws
    else
      match Get(Get(Index0(Get(d, "candidates")), "content"), "parts")
      case JNull => NotFound
      case JArr(items) => FindInline(items)
      case _ => Throws
  }

  /** A value as a template literal shows it: a string as itself, a missing value as
      `undefined`, a boolean as `true` or `false`. */
  function TemplateText(j: Json): string
  {
    match j
    case JStr(s) => s
    case JNull => "undefined"
    case JBool(b) => if b then "true" else "false"
    case _ => ""
  }

  /** `data:${d.mimeType};base64,${d.data}`. */
  function InlineDataUrl(d: Json): (r: string)
    ensures StartsWith(r, "data:") && r != ""
    ensures Get(d, "mimeType").JStr? && Get(d, "data").JStr? ==>
              r == "data:" + Get(d, "mimeType").s + ";base64," + Get(d, "data").s
  {
    var r := "data:" + TemplateText(Get(d, "mimeType")) + ";base64," + TemplateText(Get(d, "data"));
    assert r[..5] == "data:";
    r
  }

  /** The URL a synchronous job ends with, `""` when none. `native` is the
      `generateContent` reply and `chat` the chat-completions reply; `None` when that
      request or its parse threw. A Gemini model asks `generateContent` first and
      falls back to chat completions only when that reply was read and held no image;
      an error in the first request ends the job with no URL. */
  function SyncUrl(route: ImageRoute, native: Option<Json>, chat: Option<Json>): (r: string)
    requires route != OmniImageTask
    ensures route == ChatCompletion ==> r == (if chat.Some? then ChatUrl(chat.value) else "")
    ensures route == GeminiNative && native.None? ==> r == ""
    ensures route == GeminiNative && native.Some? && GeminiPart(native.value).Found? ==>
              r == InlineDataUrl(GeminiPart(native.value).data)
    ensures route == GeminiNative && native.Some? && GeminiPart(native.value).Throws? ==> r == ""
    ensures route == GeminiNative && native.Some? && GeminiPart(native.value).NotFound? && Find(native.value).Some? ==>
              r == Find(native.value).value
    ensures route == GeminiNative && native.Some? && GeminiPart(native.value).NotFound? && Find(native.value).None? ==>
              r == (if chat.Some? then ChatUrl(chat.value) else "")
    ensures r == "" || (IsMediaRef(r) && r != []) || StartsWith(r, "data:")
  {
    match route
    case ChatCompletion => if chat.Some? then ChatUrl(chat.value) else ""
    case GeminiNative =>
      (match native
       case None => ""
       case Some(d) =>
         (match GeminiPart(d)
          case Throws => ""
          case Found(v) => InlineDataUrl(v)
          case NotFound =>
            (match Find(d)
             case Some(u) => u
             case None => if chat.Some? then ChatUrl(chat.value) else "")))
  }

  /** The Gemini fallback asks chat completions exactly when the native reply was read,
      held no inline image and nothing the search recognises. */
  lemma GeminiFallbackOnlyWhenEmpty(native: Json, chat: Json)
    ensures SyncUrl(GeminiNative, Some(native), Some(chat)) != SyncUrl(GeminiNative, Some(native), None) ==>
              GeminiPart(native).NotFound? && Find(native).None?
  {
  }
}
