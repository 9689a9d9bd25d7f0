/** The asset records the gallery shows, and the per-id updates the
    application applies to its list of them (`prev.map(a => a.id === id ? ... : a)`
    and `prev.filter(a => a.id !== id)`). The durable store is a map keyed by id. */
module Assets {
  import opened Wrappers

  datatype MediaKind = Image | Video

  datatype Status = Loading | Queued | Processing | Completed | Failed

  /** `genTimeLabel`: a fixed text, or the elapsed seconds shown as `${n}s`. */
  datatype TimeLabel = Text(text: string) | Seconds(n: int)

  datatype RefImage = RefImage(id: string, data: string, mimeType: string)

  /** The submission snapshot kept in `config`, enough to submit the same job again. */
  datatype JobConfig =
    | ImageJob(modelId: string, aspectRatio: string, imageSize: string, prompt: string, refs: seq<RefImage>)
    | VideoJob(modelId: string, videoRatio: string, optionIdx: int, prompt: string, refs: seq<RefImage>)
  {
    function ModelId(): string
    {
      match this
      case ImageJob(m, _, _, _, _) => m
      case VideoJob(m, _, _, _, _) => m
    }
  }

  datatype Asset = Asset(
    id: string,
    url: string,
    kind: MediaKind,
    prompt: string,
    modelName: string,
    durationText: string,
    genTimeLabel: TimeLabel,
    modelId: string,
    timestamp: Option<int>,
    status: Status,
    taskId: Option<string>,
    config: JobConfig)

  type Store = map<string, Asset>

  /** The label a placeholder shows while it waits. */
  const GeneratingLabel: TimeLabel := Text("生成中...")

  /** What one `map` callback does to the asset it picks out. */
  datatype Patch =
    | MarkCompleted(url: string, time: TimeLabel)  // `{ ...a, status: 'completed', url, genTimeLabel }`
    | MarkFailed(time: TimeLabel)                  // `{ ...a, status: 'failed', genTimeLabel }`
    | Replace(asset: Asset)                         // `a.id === id ? updated : a`

  function ApplyPatch(a: Asset, p: Patch): Asset
  {
    match p
    case MarkCompleted(u, l) => a.(status := Completed, url := u, genTimeLabel := l)
    case MarkFailed(l) => a.(status := Failed, genTimeLabel := l)
    case Replace(b) => b
  }

  /** A patch for `id` that leaves the asset's id alone. */
  predicate KeepsId(p: Patch, id: string)
  {
    p.Replace? ==> p.asset.id == id
  }

  /** `prev.map(a => a.id === id ? patch(a) : a)`. */
  function UpdateById(s: seq<Asset>, id: string, p: Patch): (r: seq<Asset>)
    ensures |r| == |s|
    ensures forall k :: 0 <= k < |s| ==> r[k] == if s[k].id == id then ApplyPatch(s[k], p) else s[k]
  {
    if s == [] then []
    else [if s[0].id == id then ApplyPatch(s[0], p) else s[0]] + UpdateById(s[1..], id, p)
  }

  /** `prev.filter(a => a.id !== id)`. */
  function DeleteById(s: seq<Asset>, id: string): (r: seq<Asset>)
    ensures |r| <= |s|
    ensures forall k :: 0 <= k < |r| ==> r[k].id != id
  {
    if s == [] then []
    else if s[0].id == id then DeleteById(s[1..], id)
    else [s[0]] + DeleteById(s[1..], id)
  }

  /** The assets a delete keeps are exactly the others. */
  lemma {:induction false} DeleteKeepsOthers(s: seq<Asset>, id: string, a: Asset)
    ensures a in DeleteById(s, id) <==> a in s && a.id != id
  {
    if s != [] {
      DeleteKeepsOthers(s[1..], id, a);
      assert a in s <==> a == s[0] || a in s[1..];
    }
  }

  function Ids(s: seq<Asset>): set<string>
  {
    set a | a in s :: a.id
  }

  predicate DistinctIds(s: seq<Asset>)
  {
    forall i, j :: 0 <= i < j < |s| ==> s[i].id != s[j].id
  }

  // ---------------------------------------------------------------------
  // Per-id updates are independent of each other

  /** Two updates aimed at different assets commute: the order in which two jobs'
      callbacks run does not change the list they leave behind. */
  lemma UpdatesCommute(s: seq<Asset>, id1: string, p1: Patch, id2: string, p2: Patch)
    requires id1 != id2 && KeepsId(p1, id1) && KeepsId(p2, id2)
    ensures UpdateById(UpdateById(s, id1, p1), id2, p2) == UpdateById(UpdateById(s, id2, p2), id1, p1)
  {
    var a := UpdateById(UpdateById(s, id1, p1), id2, p2);
    var b := UpdateById(UpdateById(s, id2, p2), id1, p1);
    forall k | 0 <= k < |s| ensures a[k] == b[k] {
    }
  }

  /** A delete and an update of a different asset commute. */
  lemma {:induction false} DeleteUpdateCommute(s: seq<Asset>, id1: string, id2: string, p: Patch)
    requires id1 != id2 && KeepsId(p, id2)
    ensures DeleteById(UpdateById(s, id2, p), id1) == UpdateById(DeleteById(s, id1), id2, p)
  {
    if s != [] {
      DeleteUpdateCommute(s[1..], id1, id2, p);
      assert UpdateById(s, id2, p)[1..] == UpdateById(s[1..], id2, p);
    }
  }

  /** An update keeps the set of ids, and ids that were unique stay unique. */
  lemma UpdateKeepsIds(s: seq<Asset>, id: string, p: Patch)
    requires KeepsId(p, id)
    ensures Ids(UpdateById(s, id, p)) == Ids(s)
    ensures DistinctIds(s) ==> DistinctIds(UpdateById(s, id, p))
  {
    var r := UpdateById(s, id, p);
    assert forall k :: 0 <= k < |s| ==> r[k].id == s[k].id;
    forall x | x in Ids(r) ensures x in Ids(s) {
      var a :| a in r && a.id == x;
      var k :| 0 <= k < |r| && r[k] == a;
      assert s[k] in s;
    }
    forall x | x in Ids(s) ensures x in Ids(r) {
      var a :| a in s && a.id == x;
      var k :| 0 <= k < |s| && s[k] == a;
      assert r[k] in r;
    }
  }

  // ---------------------------------------------------------------------
  // Delete removes exactly the asset it names

  lemma {:induction false} DeleteAbsent(s: seq<Asset>, id: string)
    requires forall k :: 0 <= k < |s| ==> s[k].id != id
    ensures DeleteById(s, id) == s
  {
    if s != [] {
      assert forall k :: 1 <= k < |s| ==> s[1..][k - 1] == s[k];
      DeleteAbsent(s[1..], id);
    }
  }

  lemma {:induction false} DeleteDistributes(s: seq<Asset>, t: seq<Asset>, id: string)
    ensures DeleteById(s + t, id) == DeleteById(s, id) + DeleteById(t, id)
  {
    if s != [] {
      assert (s + t)[1..] == s[1..] + t;
      DeleteDistributes(s[1..], t, id);
    } else {
      assert s + t == t;
    }
  }

  /** In a list where ids are unique, deleting an asset's id takes out that asset and
      leaves every other one in its order. */
  lemma DeleteExactlyOne(pre: seq<Asset>, x: Asset, post: seq<Asset>)
    requires forall k :: 0 <= k < |pre| ==> pre[k].id != x.id
    requires forall k :: 0 <= k < |post| ==> post[k].id != x.id
    ensures DeleteById(pre + [x] + post, x.id) == pre + post
  {
    var id := x.id;
    var dx := DeleteById([x], id);
    assert dx == [] by {
      assert [x][1..] == [];
    }
    DeleteDistributes(pre + [x], post, id);
    DeleteDistributes(pre, [x], id);
    DeleteAbsent(pre, id);
    DeleteAbsent(post, id);
    assert pre + dx == pre;
  }

  // ---------------------------------------------------------------------
  // `url` is set exactly when the asset is completed

  predicate Consistent(a: Asset)
  {
    (a.url != "") <==> (a.status == Completed)
  }

  predicate AllConsistent(s: seq<Asset>)
  {
    forall k :: 0 <= k < |s| ==> Consistent(s[k])
  }

  /** A patch that keeps the invariant when applied to an asset still in flight. */
  predicate SoundPatch(p: Patch)
  {
    match p
    case MarkCompleted(u, _) => u != ""
    case MarkFailed(_) => true
    case Replace(b) => Consistent(b)
  }

  /** Every update the application makes keeps `url` non-empty exactly on completed
      assets, provided the asset it targets has not completed yet. */
  lemma UpdatePreservesConsistency(s: seq<Asset>, id: string, p: Patch)
    requires AllConsistent(s) && SoundPatch(p)
    requires forall k :: 0 <= k < |s| && s[k].id == id ==> s[k].status != Completed
    ensures AllConsistent(UpdateById(s, id, p))
  {
  }
}

/** Startup: the stored assets, newest first, and the jobs whose polling restarts. */
module Resume {
  import opened Wrappers
  import opened Assets

  /** `(a.timestamp || 0)`: a missing (or zero) timestamp sorts as 0. */
  function SortKey(a: Asset): int
  {
    a.timestamp.GetOr(0)
  }

  predicate SortedNewestFirst(s: seq<Asset>)
  {
    forall i, j :: 0 <= i < j < |s| ==> SortKey(s[i]) >= SortKey(s[j])
  }

  /** The assets of `s` whose key is `k`, in their order in `s`. */
  function WithKey(s: seq<Asset>, k: int): seq<Asset>
  {
    if s == [] then []
    else (if SortKey(s[0]) == k then [s[0]] else []) + WithKey(s[1..], k)
  }

  /** Place `x` in front of the first asset that is not newer than it. */
  function Insert(x: Asset, s: seq<Asset>): seq<Asset>
  {
    if s == [] || SortKey(x) >= SortKey(s[0]) then [x] + s
    else [s[0]] + Insert(x, s[1..])
  }

  /** Insertion keeps every asset and adds `x` once. */
  lemma {:induction false} InsertPermutes(x: Asset, s: seq<Asset>)
    ensures multiset(Insert(x, s)) == multiset(s) + multiset{x}
  {
    if s != [] && SortKey(x) < SortKey(s[0]) {
      InsertPermutes(x, s[1..]);
      assert s == [s[0]] + s[1..];
    }
  }

  /** `assets.sort((a, b) => (b.timestamp || 0) - (a.timestamp || 0))`; `Array.prototype.sort`
      is stable, so assets with equal keys keep their stored order. */
  function SortNewestFirst(s: seq<Asset>): (r: seq<Asset>)
    ensures multiset(r) == multiset(s)
  {
    if s == [] then []
    else
      assert s == [s[0]] + s[1..];
      InsertPermutes(s[0], SortNewestFirst(s[1..]));
      Insert(s[0], SortNewestFirst(s[1..]))
  }

  lemma {:induction false} InsertSorted(x: Asset, s: seq<Asset>)
    requires SortedNewestFirst(s)
    ensures SortedNewestFirst(Insert(x, s))
  {
    if s != [] && SortKey(x) < SortKey(s[0]) {
      InsertSorted(x, s[1..]);
      var r := Insert(x, s[1..]);
      InsertBounded(x, s[1..], SortKey(s[0]));
      var q := [s[0]] + r;
      forall i, j | 0 <= i < j < |q| ensures SortKey(q[i]) >= SortKey(q[j]) {
        assert q[j] == r[j - 1];
        if i > 0 {
          assert q[i] == r[i - 1];
        }
      }
    }
  }

  /** Inserting keeps every key under a bound that `x` and all of `s` are under. */
  lemma {:induction false} InsertBounded(x: Asset, s: seq<Asset>, bound: int)
    requires SortKey(x) <= bound
    requires forall k :: 0 <= k < |s| ==> SortKey(s[k]) <= bound
    ensures forall k :: 0 <= k < |Insert(x, s)| ==> SortKey(Insert(x, s)[k]) <= bound
  {
    if s != [] && SortKey(x) < SortKey(s[0]) {
      InsertBounded(x, s[1..], bound);
      var r := Insert(x, s[1..]);
      assert forall k :: 1 <= k < |[s[0]] + r| ==> ([s[0]] + r)[k] == r[k - 1];
    }
  }

  lemma {:induction false} InsertStable(x: Asset, s: seq<Asset>, k: int)
    requires SortedNewestFirst(s)
    ensures WithKey(Insert(x, s), k) == (if SortKey(x) == k then [x] else []) + WithKey(s, k)
  {
    if s == [] || SortKey(x) >= SortKey(s[0]) {
      WithKeyCons(x, s, k);
    } else {
      var r := Insert(x, s[1..]);
      SortedTail(s);
      InsertStable(x, s[1..], k);
      WithKeyCons(s[0], r, k);
      // s[0] is strictly newer than x, so the two cannot both have key k
      assert SortKey(x) == k ==> SortKey(s[0]) != k;
    }
  }

  lemma WithKeyCons(a: Asset, s: seq<Asset>, k: int)
    ensures WithKey([a] + s, k) == (if SortKey(a) == k then [a] else []) + WithKey(s, k)
  {
    assert ([a] + s)[1..] == s;
  }

  lemma SortedTail(s: seq<Asset>)
    requires s != [] && SortedNewestFirst(s)
    ensures SortedNewestFirst(s[1..])
  {
    forall i, j | 0 <= i < j < |s[1..]| ensures SortKey(s[1..][i]) >= SortKey(s[1..][j]) {
      assert s[1..][i] == s[i + 1] && s[1..][j] == s[j + 1];
    }
  }

  /** The restored list is newest first, holds exactly the stored assets, and keeps the
      stored order among assets with the same timestamp. */
  lemma {:induction false} SortCorrect(s: seq<Asset>)
    ensures SortedNewestFirst(SortNewestFirst(s))
    ensures multiset(SortNewestFirst(s)) == multiset(s)
    ensures forall k :: WithKey(SortNewestFirst(s), k) == WithKey(s, k)
  {
    if s != [] {
      SortCorrect(s[1..]);
      InsertSorted(s[0], SortNewestFirst(s[1..]));
      forall k ensures WithKey(SortNewestFirst(s), k) == WithKey(s, k) {
        InsertStable(s[0], SortNewestFirst(s[1..]), k);
      }
    }
  }

  /** Which polling protocol a job resumes with. */
  datatype PollFamily = VideoFamily(modelId: string) | KlingImageFamily

  /** `startVideoPolling(v.taskId!, v.id, v.timestamp, v.modelId)` and
      `startKlingImagePolling(v.taskId!, v.id, v.timestamp)`. */
  datatype PollStart = PollStart(family: PollFamily, taskId: Option<string>, assetId: string, startTime: Option<int>)

  predicate InFlight(a: Asset)
  {
    a.status == Queued || a.status == Processing
  }

  predicate ResumesAsVideo(a: Asset)
  {
    a.kind == Video && InFlight(a)
  }

  predicate ResumesAsKling(a: Asset)
  {
    a.kind == Image && a.modelId == "kling-image-o1" && InFlight(a)
  }

  function VideoPolls(s: seq<Asset>): (r: seq<PollStart>)
    ensures |r| <= |s|
  {
    if s == [] then []
    else (if ResumesAsVideo(s[0])
          then [PollStart(VideoFamily(s[0].modelId), s[0].taskId, s[0].id, s[0].timestamp)]
          else []) + VideoPolls(s[1..])
  }

  function KlingPolls(s: seq<Asset>): (r: seq<PollStart>)
    ensures |r| <= |s|
  {
    if s == [] then []
    else (if ResumesAsKling(s[0])
          then [PollStart(KlingImageFamily, s[0].taskId, s[0].id, s[0].timestamp)]
          else []) + KlingPolls(s[1..])
  }

  /** What the startup effect does with the assets read from the store: the list to show,
      then the video polls, then the omni-image polls, all in list order. */
  datatype Restored = Restored(shown: seq<Asset>, polls: seq<PollStart>)

  function Restore(stored: seq<Asset>): Restored
  {
    var shown := SortNewestFirst(stored);
    Restored(shown, VideoPolls(shown) + KlingPolls(shown))
  }

  /** Number of polls started for asset id `x`. */
  function PollsFor(ps: seq<PollStart>, x: string): nat
  {
    if ps == [] then 0 else (if ps[0].assetId == x then 1 else 0) + PollsFor(ps[1..], x)
  }

  lemma {:induction false} PollsForAppend(a: seq<PollStart>, b: seq<PollStart>, x: string)
    ensures PollsFor(a + b, x) == PollsFor(a, x) + PollsFor(b, x)
  {
    if a != [] {
      assert (a + b)[1..] == a[1..] + b;
      assert (a + b)[0] == a[0];
      PollsForAppend(a[1..], b, x);
    } else {
      assert a + b == b;
    }
  }

  /** `p` is the poll that resumes `a`: a video poll with the asset's model for a video,
      an omni-image poll for a `kling-image-o1` image, either carrying the asset's task
      id, id and timestamp. */
  predicate StartsFor(p: PollStart, a: Asset)
  {
    && p.taskId == a.taskId && p.assetId == a.id && p.startTime == a.timestamp
    && ((ResumesAsVideo(a) && p.family == VideoFamily(a.modelId))
        || (ResumesAsKling(a) && p.family == KlingImageFamily))
  }

  /** Every poll started for a list resumes one of its assets. */
  lemma {:induction false} PollsStartFor(s: seq<Asset>)
    ensures forall p :: p in VideoPolls(s) ==> exists a :: a in s && StartsFor(p, a)
    ensures forall p :: p in KlingPolls(s) ==> exists a :: a in s && StartsFor(p, a)
  {
    if s != [] {
      PollsStartFor(s[1..]);
      var a := s[0];
      var v := if ResumesAsVideo(a) then [PollStart(VideoFamily(a.modelId), a.taskId, a.id, a.timestamp)] else [];
      var k := if ResumesAsKling(a) then [PollStart(KlingImageFamily, a.taskId, a.id, a.timestamp)] else [];
      assert VideoPolls(s) == v + VideoPolls(s[1..]);
      assert KlingPolls(s) == k + KlingPolls(s[1..]);
      assert forall p :: p in v || p in k ==> StartsFor(p, a);
      assert forall b :: b in s[1..] ==> b in s;
    }
  }

  /** Each resumable asset contributes one poll, every other asset none (`PollsStartFor` gives its family). */
  lemma {:induction false} PollsCount(s: seq<Asset>, x: string)
    ensures PollsFor(VideoPolls(s) + KlingPolls(s), x)
            == CountIdWhere(s, x, true) + CountIdWhere(s, x, false)
  {
    PollsForAppend(VideoPolls(s), KlingPolls(s), x);
    VideoPollsCount(s, x);
    KlingPollsCount(s, x);
  }

  /** Number of assets with id `x` that resume as video (`video` true) or as omni-image. */
  function CountIdWhere(s: seq<Asset>, x: string, video: bool): nat
  {
    if s == [] then 0
    else (if s[0].id == x && (if video then ResumesAsVideo(s[0]) else ResumesAsKling(s[0])) then 1 else 0)
         + CountIdWhere(s[1..], x, video)
  }

  lemma {:induction false} VideoPollsCount(s: seq<Asset>, x: string)
    ensures PollsFor(VideoPolls(s), x) == CountIdWhere(s, x, true)
  {
    if s != [] {
      VideoPollsCount(s[1..], x);
      var head := if ResumesAsVideo(s[0])
                  then [PollStart(VideoFamily(s[0].modelId), s[0].taskId, s[0].id, s[0].timestamp)] else [];
      PollsForAppend(head, VideoPolls(s[1..]), x);
    }
  }

  lemma {:induction false} KlingPollsCount(s: seq<Asset>, x: string)
    ensures PollsFor(KlingPolls(s), x) == CountIdWhere(s, x, false)
  {
    if s != [] {
      KlingPollsCount(s[1..], x);
      var head := if ResumesAsKling(s[0])
                  then [PollStart(KlingImageFamily, s[0].taskId, s[0].id, s[0].timestamp)] else [];
      PollsForAppend(head, KlingPolls(s[1..]), x);
    }
  }

  lemma {:induction false} CountWhereInsert(a: Asset, s: seq<Asset>, x: string, video: bool)
    ensures CountIdWhere(Insert(a, s), x, video) == CountIdWhere([a], x, video) + CountIdWhere(s, x, video)
  {
    if s == [] || SortKey(a) >= SortKey(s[0]) {
      CountWhereSplit([a], s, x, video);
    } else {
      CountWhereInsert(a, s[1..], x, video);
      CountWhereSplit([s[0]], Insert(a, s[1..]), x, video);
      CountWhereSplit([s[0]], s[1..], x, video);
      assert [s[0]] + s[1..] == s;
    }
  }

  /** Sorting moves assets around but keeps how many of them resume with each protocol. */
  lemma {:induction false} CountWhereSorted(s: seq<Asset>, x: string, video: bool)
    ensures CountIdWhere(SortNewestFirst(s), x, video) == CountIdWhere(s, x, video)
  {
    if s != [] {
      CountWhereSorted(s[1..], x, video);
      CountWhereInsert(s[0], SortNewestFirst(s[1..]), x, video);
      CountWhereSplit([s[0]], s[1..], x, video);
      assert [s[0]] + s[1..] == s;
    }
  }

  lemma {:induction false} CountWhereSplit(a: seq<Asset>, b: seq<Asset>, x: string, video: bool)
    ensures CountIdWhere(a + b, x, video) == CountIdWhere(a, x, video) + CountIdWhere(b, x, video)
  {
    if a != [] {
      assert (a + b)[1..] == a[1..] + b;
      assert (a + b)[0] == a[0];
      CountWhereSplit(a[1..], b, x, video);
    } else {
      assert a + b == b;
    }
  }

  lemma {:induction false} CountWhereAtMostOne(s: seq<Asset>, x: string, video: bool)
    requires DistinctIds(s)
    ensures CountIdWhere(s, x, video) <= 1
    ensures CountIdWhere(s, x, video) == 1 <==>
            exists k :: 0 <= k < |s| && s[k].id == x && (if video then ResumesAsVideo(s[k]) else ResumesAsKling(s[k]))
  {
    if s != [] {
      CountWhereAtMostOne(s[1..], x, video);
      if s[0].id == x {
        CountWhereNone(s[1..], x, video);
      }
      assert forall k :: 1 <= k < |s| ==> s[k] == s[1..][k - 1];
    }
  }

  lemma {:induction false} CountWhereNone(s: seq<Asset>, x: string, video: bool)
    requires forall k :: 0 <= k < |s| ==> s[k].id != x
    ensures CountIdWhere(s, x, video) == 0
  {
    if s != [] {
      CountWhereNone(s[1..], x, video);
    }
  }

  /** Startup restarts polling exactly for the queued or processing videos and the queued or
      processing `kling-image-o1` images, once each: given stored assets with unique ids, an id
      gets one poll if its asset resumes, and none otherwise; and each poll is that asset's
      own, with its family, task id and timestamp. */
  lemma RestoreStartsOnePollPerJob(stored: seq<Asset>, x: string)
    requires DistinctIds(stored)
    ensures PollsFor(Restore(stored).polls, x) <= 1
    ensures PollsFor(Restore(stored).polls, x) == 1 <==>
            exists k :: 0 <= k < |stored| && stored[k].id == x && (ResumesAsVideo(stored[k]) || ResumesAsKling(stored[k]))
    ensures forall p :: p in Restore(stored).polls ==> exists a :: a in stored && StartsFor(p, a)
  {
    var shown := SortNewestFirst(stored);
    PollsStartFor(shown);
    assert forall a :: a in shown ==> a in stored by {
      forall a | a in shown ensures a in stored {
        assert a in multiset(shown);
      }
    }
    PollsCount(shown, x);
    CountWhereSorted(stored, x, true);
    CountWhereSorted(stored, x, false);
    CountWhereAtMostOne(stored, x, true);
    CountWhereAtMostOne(stored, x, false);
    // no asset is both a video and an image
    CountWhereExclusive(stored, x);
  }

  lemma {:induction false} CountWhereExclusive(s: seq<Asset>, x: string)
    requires DistinctIds(s)
    ensures CountIdWhere(s, x, true) + CountIdWhere(s, x, false) <= 1
  {
    if s != [] {
      CountWhereExclusive(s[1..], x);
      if s[0].id == x {
        CountWhereNone(s[1..], x, true);
        CountWhereNone(s[1..], x, false);
      }
    }
  }
}
