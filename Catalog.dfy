/** The model catalogue (`MODELS`, `VIDEO_MODELS`) and the routing decisions the
    application derives from a model id: which endpoint a job goes to and how many
    reference images a model accepts. */
module Catalog {
  import opened Wrappers
  import opened Text

  datatype ImageModel = ImageModel(id: string, name: string, maxImages: nat)

  /** A selectable duration of a video model; `seconds` is the option's `s` text. */
  datatype VideoOption = VideoOption(seconds: string, quality: string)

  datatype VideoModel = VideoModel(id: string, name: string, options: seq<VideoOption>)

  const ImageModels: seq<ImageModel> := [
    ImageModel("gemini-2.5-flash-image", "NANO BANANA", 4),
    ImageModel("gemini-3-pro-image-preview", "Nano Banana Pro", 8),
    ImageModel("kling-image-o1", "Kling Image O1", 4),
    ImageModel("gpt-image-1-all", "GPT Image 1", 4),
    ImageModel("gpt-image-1.5-all", "GPT Image 1.5", 4),
    ImageModel("grok-4-image", "Grok 4 Image", 4),
    ImageModel("jimeng-4.5", "Jimeng 4.5", 8)
  ]

  const VideoModels: seq<VideoModel> := [
    VideoModel("sora-2", "Sora 2", [VideoOption("10", "标清"), VideoOption("15", "标清")]),
    VideoModel("sora-2-pro", "Sora 2 Pro", [VideoOption("15", "高清"), VideoOption("25", "标清")]),
    VideoModel("veo_3_1-fast", "VEO 3.1 FAST", [VideoOption("8", "标清")]),
    VideoModel("veo3.1-pro", "VEO 3.1 PRO", [VideoOption("8", "高清")]),
    VideoModel("jimeng-video-3.0", "Jimeng Video 3.0", [VideoOption("5", "标清"), VideoOption("10", "标清")]),
    VideoModel("grok-video-3", "Grok Video 3", [VideoOption("6", "标清")])
  ]

  /** Both lists, as the lookups that label placeholders take them. */
  datatype Catalogue = Catalogue(images: seq<ImageModel>, videos: seq<VideoModel>)

  const Listed: Catalogue := Catalogue(ImageModels, VideoModels)

  /** The one image model served through the asynchronous omni-image task API. */
  const AsyncImageModel: string := "kling-image-o1"

  function ImageModelId(m: ImageModel): string { m.id }

  function VideoModelId(m: VideoModel): string { m.id }

  /** `MODELS.find(m => m.id === id)` and `VIDEO_MODELS.find(m => m.id === id)`, with
      `key` reading a model's id. */
  function FindModel<M>(models: seq<M>, key: M -> string, id: string): (r: Option<M>)
    ensures r.Some? ==> r.value in models && key(r.value) == id
    ensures r.None? <==> forall k :: 0 <= k < |models| ==> key(models[k]) != id
  {
    if models == [] then None
    else if key(models[0]) == id then Some(models[0])
    else FindModel(models[1..], key, id)
  }

  /** The lookup finds the first model with the id it is asked for. */
  lemma {:induction false} FindFirst<M>(models: seq<M>, key: M -> string, k: nat)
    requires k < |models|
    requires forall m :: 0 <= m < k ==> key(models[m]) != key(models[k])
    ensures FindModel(models, key, key(models[k])) == Some(models[k])
  {
    if k > 0 {
      FindFirst(models[1..], key, k - 1);
    }
  }

  predicate DistinctKeys<M>(models: seq<M>, key: M -> string)
  {
    forall i, j :: 0 <= i < j < |models| ==> key(models[i]) != key(models[j])
  }

  /** The listed ids are distinct (their lengths alone tell the image ids apart). */
  lemma ListedIdsDistinct()
    ensures DistinctKeys(ImageModels, ImageModelId)
    ensures DistinctKeys(VideoModels, VideoModelId)
  {
    forall i, j | 0 <= i < j < |ImageModels| ensures ImageModels[i].id != ImageModels[j].id {
      assert |ImageModels[i].id| != |ImageModels[j].id|;
    }
    forall i, j | 0 <= i < j < |VideoModels| ensures VideoModels[i].id != VideoModels[j].id {
      assert |VideoModels[i].id| != |VideoModels[j].id| || VideoModels[i].id[0] != VideoModels[j].id[0];
    }
  }

  /** `MODELS.find(m => m.id === id)?.name || id`: the catalogue name, or the id itself
      for a model the catalogue does not list. The catalogue is a parameter; the page
      passes `ImageModels`. */
  function ImageModelName(images: seq<ImageModel>, id: string): string
  {
    match FindModel(images, ImageModelId, id)
    case Some(m) => if m.name != "" then m.name else id
    case None => id
  }

  /** The name and duration text a video placeholder shows:
      `VIDEO_MODELS.find(...)!.name` and `${...options[idx].s}s`. Both expressions throw
      for an unknown model or an option index out of range; that is `None` here. The
      page passes `VideoModels`. */
  function VideoLabels(videos: seq<VideoModel>, id: string, optionIdx: int): Option<(string, string)>
  {
    match FindModel(videos, VideoModelId, id)
    case Some(m) =>
      if 0 <= optionIdx < |m.options| then Some((m.name, m.options[optionIdx].seconds + "s")) else None
    case None => None
  }

  /** The default video model's second option is labelled `Sora 2` and `15s`. */
  lemma DefaultVideoLabels()
    ensures VideoLabels(VideoModels, "sora-2", 1) == Some(("Sora 2", "15s"))
  {
    var m := VideoModels[0];
    assert FindModel(VideoModels, VideoModelId, "sora-2") == Some(m);
    assert m.options[1].seconds + "s" == "15s";
  }

  /** Every listed image model's placeholder shows its catalogue name, and a model the
      catalogue does not list shows its id. */
  lemma ListedImageNames()
    ensures forall k :: 0 <= k < |ImageModels| ==> ImageModelName(ImageModels, ImageModels[k].id) == ImageModels[k].name
    ensures forall id :: (forall k :: 0 <= k < |ImageModels| ==> ImageModels[k].id != id) ==>
              ImageModelName(ImageModels, id) == id
  {
    ListedIdsDistinct();
    forall k | 0 <= k < |ImageModels|
      ensures ImageModelName(ImageModels, ImageModels[k].id) == ImageModels[k].name
    {
      FindFirst(ImageModels, ImageModelId, k);
      assert ImageModels[k].name != "";
    }
  }

  /** Every option of every listed video model is labelled with the model's own name and
      that option's seconds; an option index out of range, or a model the catalogue does
      not list, cannot be labelled. */
  lemma ListedVideoLabels()
    ensures forall k, i :: 0 <= k < |VideoModels| && 0 <= i < |VideoModels[k].options| ==>
              VideoLabels(VideoModels, VideoModels[k].id, i)
                == Some((VideoModels[k].name, VideoModels[k].options[i].seconds + "s"))
    ensures forall k, i :: 0 <= k < |VideoModels| && !(0 <= i < |VideoModels[k].options|) ==>
              VideoLabels(VideoModels, VideoModels[k].id, i).None?
    ensures forall id, i :: (forall k :: 0 <= k < |VideoModels| ==> VideoModels[k].id != id) ==>
              VideoLabels(VideoModels, id, i).None?
  {
    ListedIdsDistinct();
    forall k | 0 <= k < |VideoModels| ensures FindModel(VideoModels, VideoModelId, VideoModels[k].id) == Some(VideoModels[k]) {
      FindFirst(VideoModels, VideoModelId, k);
    }
  }

  // ---------------------------------------------------------------------
  // Routing

  /** Video models whose id starts with `veo`, `grok` or `jimeng` are created with a JSON
      body at `/v1/video/create` and queried at `/v1/video/query?id=`; every other
      video model uses a multipart body at `/v1/videos` and is queried at `/v1/videos/{id}`. */
  predicate UsesJsonVideoApi(modelId: string)
  {
    StartsWith(modelId, "veo") || StartsWith(modelId, "grok") || StartsWith(modelId, "jimeng")
  }

  function VideoCreatePath(modelId: string): string
  {
    if UsesJsonVideoApi(modelId) then "/v1/video/create" else "/v1/videos"
  }

  function VideoQueryPath(modelId: string, taskId: string): (r: string)
    ensures |r| > |taskId| && r[|r| - |taskId|..] == taskId
    ensures !UsesJsonVideoApi(modelId) ==> r == VideoCreatePath(modelId) + "/" + taskId
    ensures UsesJsonVideoApi(modelId) ==> r == "/v1/video/query?id=" + taskId
  {
    if UsesJsonVideoApi(modelId) then "/v1/video/query?id=" + taskId else "/v1/videos/" + taskId
  }

  /** How an image job is served. */
  datatype ImageRoute =
    | OmniImageTask   // asynchronous: submit, then poll the omni-image task
    | GeminiNative    // synchronous: `generateContent`, falling back to chat completions
    | ChatCompletion  // synchronous: chat completions

  /** `tModelId === 'kling-image-o1'`, then `tModelId.startsWith('gemini')`. */
  function RouteImage(modelId: string): ImageRoute
  {
    if modelId == AsyncImageModel then OmniImageTask
    else if StartsWith(modelId, "gemini") then GeminiNative
    else ChatCompletion
  }

  /** How the listed image models are served: the two Gemini models natively first,
      `kling-image-o1` as an asynchronous task, the other four through chat completions. */
  lemma ListedImageRoutes()
    ensures forall k :: 0 <= k < |ImageModels| ==>
              RouteImage(ImageModels[k].id) == (if k < 2 then GeminiNative else if k == 2 then OmniImageTask else ChatCompletion)
  {
    forall k | 0 <= k < |ImageModels|
      ensures RouteImage(ImageModels[k].id) == (if k < 2 then GeminiNative else if k == 2 then OmniImageTask else ChatCompletion)
    {
      var id := ImageModels[k].id;
      if k < 2 {
        assert id[..6] == "gemini";
      } else if k == 2 {
      } else if k < 6 {
        assert id[1] != 'e';
        DiffersAt(id, "gemini", 1);
      } else {
        DiffersAt(id, "gemini", 0);
      }
    }
  }

  /** How the listed video models are created and queried: the two Sora models through
      the multipart API at `/v1/videos`, the other four through the JSON API at
      `/v1/video/create`. */
  lemma ListedVideoRoutes()
    ensures forall k :: 0 <= k < |VideoModels| ==>
              (UsesJsonVideoApi(VideoModels[k].id) <==> k >= 2)
    ensures forall k :: 0 <= k < |VideoModels| ==>
              VideoCreatePath(VideoModels[k].id) == (if k < 2 then "/v1/videos" else "/v1/video/create")
  {
    forall k | 0 <= k < |VideoModels| ensures UsesJsonVideoApi(VideoModels[k].id) <==> k >= 2 {
      var id := VideoModels[k].id;
      if k < 2 {
        assert id[0] == 's';
        DiffersAt(id, "veo", 0);
        DiffersAt(id, "grok", 0);
        DiffersAt(id, "jimeng", 0);
      } else if k < 4 {
        assert id[..3] == "veo";
      } else if k == 4 {
        assert id[..6] == "jimeng";
      } else {
        assert id[..4] == "grok";
      }
    }
  }

  // ---------------------------------------------------------------------
  // Reference images

  datatype Category = ImageCategory | VideoCategory

  /** How many reference images the selected model accepts: the image model's
      `maxImages` (4 when the model is unknown or lists 0), two for `veo`/`grok` video
      models (first and last frame), one for every other video model. The page passes
      `ImageModels`. */
  function ReferenceLimit(images: seq<ImageModel>, category: Category, imageModelId: string, videoModelId: string): (n: nat)
    ensures n >= 1
  {
    match category
    case ImageCategory =>
      (match FindModel(images, ImageModelId, imageModelId)
       case Some(m) => if m.maxImages > 0 then m.maxImages else 4
       case None => 4)
    case VideoCategory =>
      if StartsWith(videoModelId, "veo") || StartsWith(videoModelId, "grok") then 2 else 1
  }

  /** Each listed image model accepts its own `maxImages` references (4 or 8). */
  lemma ListedImageLimits(videoModelId: string)
    ensures forall k :: 0 <= k < |ImageModels| ==>
              ReferenceLimit(ImageModels, ImageCategory, ImageModels[k].id, videoModelId) == ImageModels[k].maxImages
  {
    ListedIdsDistinct();
    forall k | 0 <= k < |ImageModels|
      ensures ReferenceLimit(ImageModels, ImageCategory, ImageModels[k].id, videoModelId) == ImageModels[k].maxImages
    {
      FindFirst(ImageModels, ImageModelId, k);
    }
  }

  /** The two VEO models and Grok Video 3 accept two references, the Sora and Jimeng
      video models one. */
  lemma ListedVideoLimits(images: seq<ImageModel>, imageModelId: string)
    ensures forall k :: 0 <= k < |VideoModels| ==>
              ReferenceLimit(images, VideoCategory, imageModelId, VideoModels[k].id)
                == (if k == 2 || k == 3 || k == 5 then 2 else 1)
  {
    forall k | 0 <= k < |VideoModels|
      ensures ReferenceLimit(images, VideoCategory, imageModelId, VideoModels[k].id)
                == (if k == 2 || k == 3 || k == 5 then 2 else 1)
    {
      var id := VideoModels[k].id;
      if k == 2 || k == 3 {
        assert id[..3] == "veo";
      } else if k == 5 {
        assert id[..4] == "grok";
      } else {
        DiffersAt(id, "veo", 0);
        DiffersAt(id, "grok", 0);
      }
    }
  }

  /** When a video model is selected the reference list is cut to its limit
      (`prev.slice(0, max)`), keeping the earliest images. */
  function TrimReferences<T>(refs: seq<T>, max: nat): (r: seq<T>)
    ensures |r| == if |refs| > max then max else |refs|
    ensures r == refs[..|r|]
  {
    if |refs| > max then refs[..max] else refs
  }

  /** Outcome of `handleImageUpload` for a selection of `files` images. */
  datatype Upload =
    | NoFiles              // nothing selected: nothing happens
    | LimitReached(max: nat)  // the error `当前模型最多支持 ${max} 张参考图`
    | Take(count: nat)     // the first `count` files are read and appended

  function DecideUpload(files: nat, max: nat, current: nat): (r: Upload)
    ensures files == 0 <==> r == NoFiles
    ensures r.LimitReached? <==> files > 0 && current >= max
    ensures r.LimitReached? ==> r.max == max
    ensures r.Take? ==> 1 <= r.count <= files && current + r.count <= max
    ensures r.Take? ==> r.count == files || current + r.count == max
  {
    if files == 0 then NoFiles
    else if max - current <= 0 then LimitReached(max)
    else Take(if files < max - current then files else max - current)
  }

  /** An upload never takes the list past the model's limit, and one that is refused
      leaves it where it was. */
  lemma UploadKeepsLimit(files: nat, max: nat, current: nat)
    requires current <= max
    ensures var r := DecideUpload(files, max, current);
            current + (if r.Take? then r.count else 0) <= max
    ensures DecideUpload(files, max, current).Take? <==> files > 0 && current < max
  {
  }
}
