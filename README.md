# Image and video generation studio: job bookkeeping and reply parsing

The application is a single React page, `index.tsx`. A user submits image or video generation jobs to several
provider APIs. Each job first appears in the gallery as a `loading` placeholder. A synchronous image job
finishes in one request. A video job, or a `kling-image-o1` image job, is accepted with a task id and then
polled on a timer until the provider reports success or failure. Finished assets are kept in IndexedDB.
At start-up, polling resumes for every job that is still in flight.

This project models the decision logic of that page in Dafny:

- `Text`: the JavaScript string operations the code relies on: `trim`, `startsWith` and ASCII `toLowerCase`.
- `Json` (with `Wrappers`): parsed replies as a JSON value. It covers JavaScript truthiness, property access
  on a value that may be missing (`?.`), and the `a || b || c` chains.
- `Extractor` and `ExtractorFacts`: `findImageUrlInObject`, the recursive search of a reply for an image
  reference. Its two regular expressions are written out as scanners. Each scanner is specified by the
  matches the expression admits and by the match a backtracking engine reports first.
- `Catalog`: the model catalogue and everything derived from a model id. That covers routing (JSON or
  multipart video API, asynchronous or synchronous images), reference-image limits and the upload decision.
  The lookups take the catalogue as a parameter (`Catalog.Catalogue`); `Catalog.Listed` is the page's own
  `MODELS` and `VIDEO_MODELS`.
- `Polling`: how one poll reply of each asynchronous family is read and classified as still running,
  completed with a URL, or failed with a label. It also covers the elapsed-seconds label.
- `Assets` and `Resume`: the asset record, the per-id `map` and `filter` updates, and start-up resumption.
  Resumption is a stable sort newest first, plus the selection of jobs whose polling restarts.
- `Gallery`: the whole asset state, i.e. the list on screen and the store as a map keyed by id. Every
  callback of a job becomes one `Step` on it. Two facts are proved about steps:
  - each step keeps the state's invariant;
  - steps on different assets commute, so the way the event loop interleaves different jobs' callbacks does
    not change the final state.
- `Batches`: starting a batch. A counted loop creates the placeholders, and the batch is put in front of the list.
- `PollLoops`: a running poll as an object. Its `running` flag is the interval that a terminal decision clears.
- `Dispatch`: how a submission reply, or a synchronous reply, becomes a step. This includes the
  Gemini-native request and its fallback to chat completions.
- `Library`: appending a style to the prompt, and drag-reordering of saved prompts. The reorder is done in
  place on an array, as the two `splice` calls do. The module also covers the selection toggle and select-all.

The model follows the code as written:

- Placeholders are never written to the store. A record is saved only when the provider accepts the job or
  the synchronous request succeeds. The invariant `Gallery.Valid` says this: the store never holds a
  `loading` record. It also says that an asset has a URL exactly when it is completed. That holds because
  a failure only ever lands on an asset that has not completed: `Patch.MarkFailed` keeps the URL.
- A video poll whose status is in the success set but that carries no URL is not failed; polling simply
  continues (`Polling.VideoSuccessWithoutUrlKeepsPolling`).
- A failure of an omni-image job, or of a synchronous job, is shown on screen only. A video failure is also
  written to the stored record, when one exists.
- The outer `try` of the video submission never catches a failed submission, because the per-placeholder
  promises are not awaited. A submission that throws leaves its placeholder `loading`
  (`Dispatch.SubmitVideo`).
- The priority key list names `url` twice. The model keeps both entries.

What the model shows about the code's behaviour across callbacks:

- A poll result that arrives after the user deleted its asset does not bring the asset back
  (`Gallery.PollAfterRemoveStaysGone`), as long as the poll's read and save of the stored record do not
  straddle the delete (see "Left out").
- A synchronous success, or an acceptance, that arrives after the delete does save the asset to the store
  again, while it stays off the screen. It reappears at the next start-up (`Gallery.LateSaveAfterRemove`).

## Model

| member | source | states |
|---|---|---|
| Text.Trim | index.tsx:288 | the trimmed text is a contiguous part of the input that neither starts nor ends with white space |
| Text.ToLower | index.tsx:645 | lower-casing keeps the length and maps each character independently |
| Text.ToLowerIdempotent | index.tsx:645 | lower-casing twice is the same as lower-casing once |
| Json.Get | index.tsx:601 | optional property access yields the value of the object's first member with the key, and `undefined` when there is none or the value is not an object |
| Json.FirstTruthy | index.tsx:645-646 | a chain of alternatives is truthy exactly when one of its operands is, and then it is one of them |
| Extractor.UrlEnd | index.tsx:289-295 | a URL match starting at a position is found exactly when one exists, and its end is the only possible end |
| Extractor.MdScan | index.tsx:289 | the markdown image pattern is found at its leftmost start, with the earliest `]` there, or proven absent |
| Extractor.UrlScan | index.tsx:295 | the URL pattern is found at its leftmost start, or proven absent |
| Extractor.FromString | index.tsx:287-298 | a string result always begins with an `http://` or `https://` scheme (in any case) or with `data:image` |
| Extractor.MarkdownRuleFirst | index.tsx:289-290 | when the trimmed text holds a markdown image link, the URL captured from the leftmost such link (of those, the one whose `]` comes first) is returned |
| Extractor.WholeUrlRule | index.tsx:291-293 | otherwise, a trimmed text starting with `http://` or `https://` and free of spaces is returned whole |
| Extractor.DataImageRule | index.tsx:294 | otherwise, a trimmed text starting with `data:image` is returned whole |
| Extractor.EmbeddedUrlRule | index.tsx:295-297 | otherwise, a URL is returned exactly when one is embedded; it is the leftmost one, taken as long as it goes |
| Extractor.Find | index.tsx:285-320 | a result is always a non-empty media reference; falsy values, booleans and numbers give nothing |
| ExtractorFacts.ArrayFirstHit | index.tsx:299-304 | an array yields the result of its first element, in order, that has one |
| ExtractorFacts.ArrayNoHit | index.tsx:299-304 | an array yields nothing exactly when none of its elements yields anything |
| ExtractorFacts.PriorityKeyWins | index.tsx:305-311 | on an object, the first priority key whose value is truthy and yields a result decides the outcome |
| ExtractorFacts.ObjectFallback | index.tsx:312-317 | when no priority key yields a result, the first member in order that is an object or string and yields one decides |
| ExtractorFacts.FallbackNoHit | index.tsx:312-317 | the member scan yields nothing exactly when no member yields anything |
| ExtractorFacts.NothingInside | index.tsx:299-317 | a failed search on an array or object has failed on every element and member |
| ExtractorFacts.ExampleNestedUrl | index.tsx:285-320 | `{"data":[{"url":"https://x/y.png"}]}` yields `https://x/y.png` |
| ExtractorFacts.ExampleNoUrl | index.tsx:285-320 | `{"foo":"bar"}` yields nothing |
| ExtractorFacts.ExampleMarkdown | index.tsx:289-290 | a markdown image link inside surrounding text yields its URL alone |
| Catalog.FindModel | index.tsx:685 | the lookup finds a catalogue entry with the id exactly when one exists (the video lookup is at lines 833-834) |
| Catalog.FindFirst | index.tsx:685 | the lookup finds the first entry with the id |
| Catalog.ListedIdsDistinct | index.tsx:91-215 | the listed image ids are distinct, and so are the listed video ids |
| Catalog.ListedImageNames | index.tsx:933 | a placeholder of each listed image model shows that model's own name, and one of an unlisted model shows its id |
| Catalog.ListedVideoLabels | index.tsx:833-834 | every option of every listed video model is labelled with that model's name and that option's seconds followed by `s`; an out-of-range option or an unlisted model cannot be labelled |
| Catalog.DefaultVideoLabels | index.tsx:157-166 | the page's default choice, `sora-2` with option 1, is labelled `Sora 2` and `15s` (the default choice is set at line 405-406) |
| Catalog.VideoQueryPath | index.tsx:639-640 | the query path ends with the task id, and uses `/v1/video/query?id=` exactly for the JSON-API models |
| Catalog.ListedImageRoutes | index.tsx:943-992 | of the listed image models, the two Gemini models go native first, `kling-image-o1` is asynchronous, and the other four use chat completions |
| Catalog.ListedVideoRoutes | index.tsx:846-894 | of the listed video models, the two Sora models use the multipart API at `/v1/videos`, and the other four the JSON API at `/v1/video/create` |
| Catalog.ListedImageLimits | index.tsx:686 | each listed image model accepts its own `maxImages` references |
| Catalog.ListedVideoLimits | index.tsx:523 | the two VEO models and Grok Video 3 accept two references, the Sora and Jimeng video models one |
| Catalog.TrimReferences | index.tsx:523-526 | switching to a video model keeps the earliest references: exactly its limit of them when there were more, all of them otherwise |
| Catalog.DecideUpload | index.tsx:682-701 | an upload with files errors exactly when the list is full, and otherwise takes as many files as fit, at least one |
| Catalog.UploadKeepsLimit | index.tsx:685-692 | an upload never takes the reference list past the model's limit |
| Polling.ClassifyVideo | index.tsx:648-675 | a video completes exactly on a success status with a URL, fails with `失败` exactly on a failure status, and keeps polling otherwise |
| Polling.VideoStatusCaseInsensitive | index.tsx:645 | the status's case never changes the decision |
| Polling.VideoSuccessWithoutUrlKeepsPolling | index.tsx:651-675 | a success status without a URL keeps polling |
| Polling.ReadVideoReply | index.tsx:645-646 | a reply is readable exactly when it is not null and its first truthy status is a string; the URL is the first truthy URL field when that is a string, and absent when no URL field is truthy |
| Polling.VideoStatusFieldOrder | index.tsx:645 | `status` is read before `state`, which is read before `data.status` |
| Polling.VideoVerdict | index.tsx:643-675 | a video tick decides exactly when its reply was read, and its decision is the classification of the reply |
| Polling.VideoCompletes | index.tsx:645-662 | a reply whose `status` is a success status in any case and whose first truthy URL field is a string completes the job with that URL |
| Polling.ClassifyKling | index.tsx:603-624 | `succeed` always ends the job, completed with the image URL or failed with `无图`; `failed` ends it with the message or `失败`; anything else keeps polling |
| Polling.FirstImageUrl | index.tsx:604-605 | the first image's `url` is read from a non-empty array whose first image is not null; an empty array or any other value gives null; a null first image throws |
| Polling.KlingStatus | index.tsx:601 | the status is the task's status when that is a string, and empty otherwise, so a non-string status is never `succeed` or `failed` |
| Polling.KlingVerdict | index.tsx:597-627 | a tick on a failed request or a null reply decides nothing, nor does a `succeed` tick whose first image is null; otherwise the decision is the classification of the status, the first image's URL and the task's message |
| Polling.KlingCompletes | index.tsx:601-618 | a succeeded task whose first image has a non-empty string URL completes with that URL |
| Polling.KlingWithoutImage | index.tsx:603-621 | a succeeded task without an image URL fails with `无图` |
| Polling.KlingFails | index.tsx:622-625 | a failed task fails with its message when that is a non-empty string, and with `失败` otherwise |
| Polling.KlingOtherStatusKeepsPolling | index.tsx:601-626 | any other status, including a missing or non-string one, keeps polling |
| Polling.RoundSeconds | index.tsx:609 | the label is the nearest whole second, with halves rounded up: whole seconds stay exact, `n*1000 + 499` gives `n` and `n*1000 + 500` gives `n + 1` (the same rounding is at lines 653 and 1033) |
| Assets.UpdateById | index.tsx:612 | a per-id update keeps length and order, changes only the matching assets and patches each of them (the same update is at lines 656, 902, 972 and 1042) |
| Assets.DeleteById | index.tsx:1057 | a per-id delete leaves no asset with the id |
| Assets.DeleteKeepsOthers | index.tsx:1057 | a delete keeps exactly the assets with other ids |
| Assets.DeleteExactlyOne | index.tsx:1057 | with unique ids, deleting an asset's id removes that asset and keeps the rest in order |
| Assets.UpdatesCommute | index.tsx:612-656 | two updates to different assets commute |
| Assets.DeleteUpdateCommute | index.tsx:1057 | a delete and an update of a different asset commute (the update is the one at line 656) |
| Assets.UpdateKeepsIds | index.tsx:612-656 | an update keeps the set of ids, and unique ids stay unique |
| Assets.UpdatePreservesConsistency | index.tsx:612 | the updates the code makes keep the URL non-empty exactly on completed assets (and line 1042) |
| Resume.InsertPermutes | index.tsx:550 | insertion keeps every asset and adds the new one once |
| Resume.SortNewestFirst | index.tsx:550 | sorting keeps every asset |
| Resume.SortCorrect | index.tsx:550 | the restored list is newest first (a missing timestamp counts as 0), holds exactly the stored assets, and keeps the stored order among equal timestamps |
| Resume.CountWhereSorted | index.tsx:550-556 | sorting keeps how many assets of an id resume with each protocol |
| Resume.RestoreStartsOnePollPerJob | index.tsx:548-556 | with unique ids, start-up polls each queued or processing video and `kling-image-o1` image exactly once and nothing else, each with its own family, task id and timestamp |
| Gallery.StoreAfter | index.tsx:341-370 | a step changes the stored record of its own id only (the writes are at lines 614-618, 667-672, 903, 973, 1043 and 1056) |
| Gallery.StepPreservesValid | index.tsx:612-1058 | every step the page can take keeps ids on screen unique, the URL set exactly on completed assets (on screen and in the store), and no `loading` record in the store; the steps it can take complete with a URL, accept a placeholder without one, and fail only an asset not yet completed |
| Gallery.RestoreKeepsConsistent | index.tsx:546-548 | a store whose records have a URL exactly when completed restores to such a list |
| Gallery.StoreStepsCommute | index.tsx:614-672 | steps on different assets commute on the store (and the delete at line 1056) |
| Gallery.StepsCommute | index.tsx:597-679 | steps on different assets commute on the whole state, so interleaving of different jobs' callbacks does not matter (and the delete at lines 1054-1058) |
| Gallery.ListOpsCommute | index.tsx:1057 | list updates and deletes of different ids commute (the update is the one at line 612) |
| Gallery.DeletesCommute | index.tsx:1057 | two deletes commute |
| Gallery.PollAfterRemoveStaysGone | index.tsx:1056-1057 | a poll result applied after a delete leaves the asset off the screen and out of the store, taking the poll's store update and the delete as atomic steps (the poll write is at lines 614-618) |
| Gallery.LateSaveAfterRemove | index.tsx:1034-1057 | a synchronous success after a delete saves the asset again while it stays off the screen |
| Batches.Placeholder | index.tsx:831-838 | a placeholder exists exactly when the job can be labelled, and is `loading`, with no URL, stamped with the start time, carrying the job's prompt, model, kind and config, and labelled with the model's name and the option's seconds (the size for images, lines 930-937) |
| Batches.CreatePlaceholders | index.tsx:830-840 | the loop yields one placeholder per id, in order, or throws when the job cannot be labelled (and lines 929-938 for images) |
| Batches.StartBatch | index.tsx:817-841 | an empty prompt does nothing; otherwise the batch's placeholders, each the job's `Placeholder` for its id, are prepended in creation order and the state stays valid for fresh ids (and lines 914-939 for images) |
| PollLoops.VerdictFor | index.tsx:597-675 | a poll completes only with a non-empty URL |
| PollLoops.ElapsedLabel | index.tsx:608-609 | the label is the rounded elapsed seconds, or `NaNs` without a start time (and lines 652-653) |
| PollLoops.PollPath | index.tsx:597-640 | a poll's request path ends with its task id, goes to the omni-image API exactly for omni-image jobs, and is the video query path for videos |
| PollLoops.PollLoop.Tick | index.tsx:592-679 | a stopped loop does nothing; no key or task id stops it; a decision is applied and stops it unless still running; a throwing tick changes nothing; the state stays valid while its asset has not completed |
| PollLoops.TickTwice | index.tsx:617-673 | after a terminal decision a later tick changes nothing |
| Dispatch.VideoTaskId | index.tsx:900 | the task id is the first truthy of `id`, `data.id`, `task_id`, `taskId` when that is a string, and absent when none is truthy |
| Dispatch.SubmitVideo | index.tsx:897-904 | a non-OK, unparsable or null reply changes nothing and polls nothing; otherwise the job is shown and saved as `queued` with the reply's task id, and a poll starts with that id, the job's model, id and start time; the asset is then unfinished, and a placeholder without URL keeps the state valid |
| Dispatch.AcceptedWithoutIdStays | index.tsx:900-904 | a video job accepted without a task id is saved as `queued`, and its poll stops on the first tick with the job still `queued` (the check is at line 637) |
| Dispatch.SubmitKling | index.tsx:962-980 | an accepted omni-image job is shown and saved as `queued` and polled with its task id; a rejected one is marked failed and nothing polls; an accepted asset is unfinished, and the state stays valid |
| Dispatch.KlingSubmitted | index.tsx:962-980 | an omni-image job is accepted exactly when `code` is 0 and a non-empty string task id came back, and otherwise rejected |
| Dispatch.ChatUrl | index.tsx:1016-1027 | the chat-completion URL is empty or a media reference, and the whole-reply search wins |
| Dispatch.ChatContentLookupRedundant | index.tsx:1016-1027 | the second lookup in `choices[0].message.content` never finds what the first missed |
| Dispatch.FindInline | index.tsx:1001 | the search yields the inline data of the first part that has any, throws at the first null part met before that, and finds nothing only when every part was passed |
| Dispatch.InlineDataUrl | index.tsx:1003 | an inline image becomes a `data:` URL, which for string fields is the MIME type and the data in the `;base64,` layout |
| Dispatch.SyncUrl | index.tsx:989-1033 | the synchronous job's URL: a native inline image, then the native reply's search, then the chat fallback; a native request or search that throws gives no URL; any URL is a media reference or a `data:` URL |
| Dispatch.GeminiFallbackOnlyWhenEmpty | index.tsx:1007 | the chat fallback matters only when the native reply held no image at all |
| Library.AppendStyle | index.tsx:737-747 | the new prompt starts with the trimmed prompt and ends with the style, joined by a space after a clause mark and by `, ` otherwise; an empty prompt becomes the style |
| Library.AppendStyleTrimStable | index.tsx:737-747 | with a style that has no white margins, the new prompt has none either, so the next pick trims nothing |
| Library.TwoStylesJoined | index.tsx:741-745 | two styles picked on an empty prompt are joined with `, ` |
| Library.MovedIsPermutation | index.tsx:803-806 | a drag move is a permutation that puts the dragged item at the target |
| Library.MovedAt | index.tsx:803-806 | where every item ends up after a move |
| Library.MoveBack | index.tsx:803-806 | dragging back to the original position undoes the move |
| Library.MoveWithin | index.tsx:803-806 | the in-place array shift yields exactly the two `splice` calls' result |
| Library.PromptLibrary.DragStart | index.tsx:793-796 | a drag starts unless an item is being edited |
| Library.PromptLibrary.DragOver | index.tsx:798-810 | the dragged item moves to the hovered position and the drag follows it, keeping the same items |
| Library.PromptLibrary.DragEnd | index.tsx:812-815 | the drag ends and the current order is saved |
| Library.Toggle | index.tsx:1096-1105 | toggling flips membership of the id and nothing else |
| Library.ToggleTwice | index.tsx:1096-1105 | toggling twice restores the selection |
| Library.SelectAllToggles | index.tsx:1107-1110 | with unique ids, select-all clears a full selection and otherwise selects every asset |
| Library.DeleteKeepsSelectionShown | index.tsx:1054-1062 | after a delete the selection still names shown assets only |

## Left out

- Network requests, timers, `Date.now()` and IndexedDB are not modelled as effects. Each reply is a
  parameter (`None` when the request or its JSON parse throws), time is an integer parameter, and the store
  is a map keyed by id. `generateUUID` is replaced by the `ids` parameter of `Batches.StartBatch`.
- The balance check and the prompt optimiser are network calls with floating-point arithmetic. Marquee
  selection, downloads, modals, clipboard, the configuration and the `localStorage` copy of the prompt
  library beyond what `DragEnd` saves are user-interface code.
- `FileReader` data-URL parsing, `base64ToBlob` and `urlToBlob` are left out. `Catalog.DecideUpload`
  decides how many files are read, not what they contain.
- The request payloads are left out: image lists, `enhance_prompt`, `size`, `duration`, the lower-cased
  `resolution` and the form fields. Only the routing that selects them is modelled.
- Clearing the error banner when references fit again (index.tsx:530-537) is not modelled.
- Numbers are reals and `NaN` is not modelled. The one place where the code shows `NaN` (a resumed job
  without a timestamp) is the `NaNs` label of `PollLoops.ElapsedLabel`.
- `for (const key in obj)` is taken to enumerate an object's members in their stored order. The model does
  not reorder integer-like keys first as JavaScript does.
- Polling.FirstImageUrl: a non-array value with a numeric `length` member is treated as having no first image.
- Polling.ReadVideoReply: a truthy URL that is not a string is treated as absent.
- Polling.KlingVerdict: a truthy image URL or message that is not a string is treated as absent.
- Dispatch.VideoTaskId: a task id that is a number, or any other non-string, is treated as absent.
- Dispatch.KlingSubmitted: a truthy task id that is not a string is rejected, where the page accepts the
  job and polls it.
- A poll's read of the stored record and its save (index.tsx:614-618, 658-672) are taken as one atomic step,
  and so is the store delete (index.tsx:1056). A delete whose transaction lands between a poll's read and its
  save is undone by that save, and the record comes back at the next start-up; the model does not show this.
- An object with two members of the same key is not ruled out. `Json.Get` then takes the first, where
  `JSON.parse` would have kept the last; `JSON.parse` never produces such an object.
- Dispatch.TemplateText renders a number, an array or an object as the empty string instead of its
  JavaScript text. It also renders a member whose value is `null` as `undefined` instead of `null`,
  because `Json.Get` gives `JNull` both for a missing member and for a `null` one: for an inline part
  whose `mimeType` is `null`, `Dispatch.SyncUrl` gives `data:undefined;base64,…` where the page writes
  `data:null;base64,…`.
- Overlapping ticks of one interval (a tick starting while the previous one still awaits) are not modelled.
  `PollLoops.PollLoop.Tick` takes each tick as one atomic step.
- The `catch` around the video submissions is not modelled, because no submission error reaches it.
- Library.PromptLibrary.DragOver: it requires the dragged and hovered positions to be within the list. The
  page takes both from the rendered list, and a removal during a drag is not modelled.
- `toLowerCase` is modelled for ASCII letters only.
