/** The application's asset state: the list on screen (`generatedAssets`) and the
    durable store (IndexedDB, a map keyed by id), and the per-asset steps that
    asynchronous job callbacks apply to it. Each step touches one id; the callbacks of
    different jobs interleave on the event loop, and the lemmas here show that the
    order in which they do so does not matter. */
module Gallery {
  import opened Wrappers
  import opened Assets
  import opened Resume
  import Polling

  datatype Gallery = Gallery(shown: seq<Asset>, store: Store)

  /** The store is keyed by asset id. */
  predicate WellKeyed(m: Store)
  {
    forall k :: k in m ==> m[k].id == k
  }

  /** Ids on screen are unique; on screen and in the store an asset has a URL exactly
      when it is completed; the store holds no `loading` placeholder (placeholders are
      saved only once a job is accepted or done). */
  predicate Valid(g: Gallery)
  {
    && DistinctIds(g.shown)
    && AllConsistent(g.shown)
    && WellKeyed(g.store)
    && (forall k :: k in g.store ==> g.store[k].status != Loading && Consistent(g.store[k]))
  }

  /** Asset `id` has not completed, on screen or in the store. */
  predicate Unfinished(g: Gallery, id: string)
  {
    && (forall k :: 0 <= k < |g.shown| && g.shown[k].id == id ==> g.shown[k].status != Completed)
    && (id in g.store ==> g.store[id].status != Completed)
  }

  /** One callback's effect on the state. */
  datatype Step =
    | Accept(placeholder: Asset, taskId: Option<string>)
        // the provider accepted the job: the placeholder becomes `queued` with its task id
    | Reject(id: string)
        // the omni-image submission failed: `请求失败`, on screen only
    | SyncDone(placeholder: Asset, url: string, seconds: int, savedAt: int)
        // a synchronous image request ended, with a URL (`""` when none was found)
    | PollDone(id: string, family: PollFamily, verdict: Polling.Verdict, elapsed: TimeLabel)
        // one poll reached a decision
    | Remove(id: string)
        // the user deleted the asset

  function StepId(s: Step): string
  {
    match s
    case Accept(p, _) => p.id
    case Reject(id) => id
    case SyncDone(p, _, _, _) => p.id
    case PollDone(id, _, _, _) => id
    case Remove(id) => id
  }

  /** `{ ...placeholder, status: 'queued', taskId }`. */
  function AsQueued(p: Asset, taskId: Option<string>): Asset
  {
    p.(status := Status.Queued, taskId := taskId)
  }

  /** `{ ...placeholder, url, genTimeLabel: `${diff}s`, status: 'completed', timestamp: Date.now() }`. */
  function SyncCompleted(p: Asset, url: string, seconds: int, savedAt: int): Asset
  {
    p.(url := url, genTimeLabel := Seconds(seconds), status := Completed, timestamp := Some(savedAt))
  }

  /** What a step does to the list: nothing, a per-id `map`, or a per-id `filter`. */
  datatype ListOp = Keep | Update(id: string, patch: Patch) | Delete(id: string)

  function ListOpOf(s: Step): (r: ListOp)
    ensures r.Update? ==> r.id == StepId(s) && KeepsId(r.patch, r.id)
    ensures r.Delete? ==> r.id == StepId(s)
  {
    match s
    case Accept(p, t) => Update(p.id, Replace(AsQueued(p, t)))
    case Reject(id) => Update(id, MarkFailed(Text("请求失败")))
    case SyncDone(p, url, secs, at) =>
      if url != "" then Update(p.id, Replace(SyncCompleted(p, url, secs, at)))
      else Update(p.id, MarkFailed(Text("失败")))
    case PollDone(id, _, v, lbl) =>
      (match v
       case StillRunning => Keep
       case CompletedWith(u) => Update(id, MarkCompleted(u, lbl))
       case FailedWith(r) => Update(id, MarkFailed(Text(r))))
    case Remove(id) => Delete(id)
  }

  function RunListOp(op: ListOp, s: seq<Asset>): seq<Asset>
  {
    match op
    case Keep => s
    case Update(id, p) => UpdateById(s, id, p)
    case Delete(id) => DeleteById(s, id)
  }

  /** What a step does to the store. Acceptance and a synchronous success save the new
      record; a poll's result is merged into the stored record only when one exists,
      and a poll failure is saved only for videos; a delete removes the record. */
  function StoreAfter(s: Step, m: Store): (r: Store)
    ensures forall k :: k != StepId(s) ==> (k in r <==> k in m) && (k in m ==> r[k] == m[k])
  {
    match s
    case Accept(p, t) => m[p.id := AsQueued(p, t)]
    case Reject(_) => m
    case SyncDone(p, url, secs, at) =>
      if url != "" then m[p.id := SyncCompleted(p, url, secs, at)] else m
    case PollDone(id, fam, v, lbl) =>
      if id !in m then m
      else
        (match v
         case StillRunning => m
         case CompletedWith(u) => m[id := ApplyPatch(m[id], MarkCompleted(u, lbl))]
         case FailedWith(r) =>
           if fam.VideoFamily? then m[id := ApplyPatch(m[id], MarkFailed(Text(r)))] else m)
    case Remove(id) => m - {id}
  }

  function Apply(g: Gallery, s: Step): Gallery
  {
    Gallery(RunListOp(ListOpOf(s), g.shown), StoreAfter(s, g.store))
  }

  /** The store's record for the step's own id after the step depends only on the
      record before it. */
  lemma {:induction false} StoreAfterLocal(s: Step, m1: Store, m2: Store)
    requires StepId(s) in m1 <==> StepId(s) in m2
    requires StepId(s) in m1 ==> m1[StepId(s)] == m2[StepId(s)]
    ensures StepId(s) in StoreAfter(s, m1) <==> StepId(s) in StoreAfter(s, m2)
    ensures StepId(s) in StoreAfter(s, m1) ==> StoreAfter(s, m1)[StepId(s)] == StoreAfter(s, m2)[StepId(s)]
  {
    match s
    case Accept(_, _) =>
    case Reject(_) =>
    case SyncDone(_, _, _, _) =>
    case PollDone(_, _, _, _) =>
    case Remove(_) =>
  }

  /** The steps that mark their asset failed. */
  predicate MarksFailed(s: Step)
  {
    s.Reject? || (s.SyncDone? && s.url == "") || (s.PollDone? && s.verdict.FailedWith?)
  }

  /** A step is sound for `g` when it is one the application can take there: a poll
      completes only with a non-empty URL, as both classifiers guarantee; an accepted
      placeholder has no URL yet (it is the `loading` one the batch created); and a
      failure lands on an asset that has not completed, since the request that fails
      is the asset's only one and its poll is cleared once it completes. */
  predicate SoundStep(g: Gallery, s: Step)
  {
    && (s.PollDone? && s.verdict.CompletedWith? ==> s.verdict.url != "")
    && (s.Accept? ==> s.placeholder.url == "")
    && (MarksFailed(s) ==> Unfinished(g, StepId(s)))
  }

  lemma {:induction false} DeleteKeepsDistinct(s: seq<Asset>, id: string)
    requires DistinctIds(s)
    ensures DistinctIds(DeleteById(s, id))
    ensures forall k :: 0 <= k < |DeleteById(s, id)| ==> DeleteById(s, id)[k] in s
  {
    if s != [] {
      DeleteKeepsDistinct(s[1..], id);
      var rest := DeleteById(s[1..], id);
      if s[0].id != id {
        forall k | 0 <= k < |rest| ensures rest[k].id != s[0].id {
          assert rest[k] in s[1..];
        }
        assert DeleteById(s, id) == [s[0]] + rest;
      }
    }
  }

  lemma ListStepValid(g: Gallery, st: Step)
    requires DistinctIds(g.shown) && AllConsistent(g.shown)
    requires SoundStep(g, st)
    ensures var r := RunListOp(ListOpOf(st), g.shown);
            DistinctIds(r) && AllConsistent(r)
  {
    match ListOpOf(st)
    case Keep =>
    case Update(id, p) =>
      UpdateKeepsIds(g.shown, id, p);
      assert SoundPatch(p);
      if p.MarkFailed? {
        UpdatePreservesConsistency(g.shown, id, p);
      } else {
        forall k | 0 <= k < |g.shown| ensures Consistent(UpdateById(g.shown, id, p)[k]) {
        }
      }
    case Delete(id) =>
      DeleteKeepsDistinct(g.shown, id);
  }

  lemma StoreStepValid(g: Gallery, st: Step)
    requires WellKeyed(g.store) && forall k :: k in g.store ==> g.store[k].status != Loading && Consistent(g.store[k])
    requires SoundStep(g, st)
    ensures var r := StoreAfter(st, g.store);
            WellKeyed(r) && forall k :: k in r ==> r[k].status != Loading && Consistent(r[k])
  {
    var r := StoreAfter(st, g.store);
    var id := StepId(st);
    if id in r {
      assert r[id].id == id && r[id].status != Loading && Consistent(r[id]);
    }
  }

  /** Every step the application can take keeps the state valid. */
  lemma StepPreservesValid(g: Gallery, s: Step)
    requires Valid(g) && SoundStep(g, s)
    ensures Valid(Apply(g, s))
  {
    ListStepValid(g, s);
    StoreStepValid(g, s);
  }

  /** At start-up the list is the store's records, newest first: a store whose records
      have a URL exactly when completed gives such a list. */
  lemma RestoreKeepsConsistent(stored: seq<Asset>)
    requires AllConsistent(stored)
    ensures AllConsistent(Restore(stored).shown)
  {
    var shown := Restore(stored).shown;
    forall k | 0 <= k < |shown| ensures Consistent(shown[k]) {
      assert shown[k] in multiset(shown);
      assert shown[k] in stored;
    }
  }

  lemma StoreStepsCommute(s1: Step, s2: Step, m: Store)
    requires StepId(s1) != StepId(s2)
    ensures StoreAfter(s2, StoreAfter(s1, m)) == StoreAfter(s1, StoreAfter(s2, m))
  {
    var i1, i2 := StepId(s1), StepId(s2);
    var m1 := StoreAfter(s1, m);
    var m2 := StoreAfter(s2, m);
    var a := StoreAfter(s2, m1);
    var b := StoreAfter(s1, m2);
    forall k ensures (k in a <==> k in b) && (k in a ==> a[k] == b[k]) {
      if k == i1 {
        // `s2` leaves `i1` alone, and `s1` sees the same record for it either way
        assert (k in a <==> k in m1) && (k in a ==> a[k] == m1[k]);
        StoreAfterLocal(s1, m, m2);
      } else if k == i2 {
        assert (k in b <==> k in m2) && (k in b ==> b[k] == m2[k]);
        StoreAfterLocal(s2, m, m1);
      } else {
        assert (k in a <==> k in m) && (k in a ==> a[k] == m[k]);
        assert (k in b <==> k in m) && (k in b ==> b[k] == m[k]);
      }
    }
    assert a == b;
  }

  /** Two steps on different assets commute, on the list and on the store: however the
      event loop interleaves the callbacks of different jobs, the resulting state is
      the same. */
  lemma StepsCommute(g: Gallery, s1: Step, s2: Step)
    requires StepId(s1) != StepId(s2)
    ensures Apply(Apply(g, s1), s2) == Apply(Apply(g, s2), s1)
  {
    ListOpsCommute(ListOpOf(s1), ListOpOf(s2), g.shown);
    StoreStepsCommute(s1, s2, g.store);
  }

  lemma ListOpsCommute(o1: ListOp, o2: ListOp, s: seq<Asset>)
    requires !o1.Keep? && !o2.Keep? ==> o1.id != o2.id
    requires o1.Update? ==> KeepsId(o1.patch, o1.id)
    requires o2.Update? ==> KeepsId(o2.patch, o2.id)
    ensures RunListOp(o2, RunListOp(o1, s)) == RunListOp(o1, RunListOp(o2, s))
  {
    match (o1, o2)
    case (Update(i1, p1), Update(i2, p2)) => UpdatesCommute(s, i1, p1, i2, p2);
    case (Delete(i1), Update(i2, p2)) => DeleteUpdateCommute(s, i1, i2, p2);
    case (Update(i1, p1), Delete(i2)) => DeleteUpdateCommute(s, i2, i1, p1);
    case (Delete(i1), Delete(i2)) => DeletesCommute(s, i1, i2);
    case (_, _) =>
  }

  lemma {:induction false} DeletesCommute(s: seq<Asset>, id1: string, id2: string)
    ensures DeleteById(DeleteById(s, id1), id2) == DeleteById(DeleteById(s, id2), id1)
  {
    if s != [] {
      DeletesCommute(s[1..], id1, id2);
    }
  }

  /** After a delete the asset is gone from the screen and the store, and a later poll
      result for it does not bring it back: the poll updates only a record it finds. */
  lemma PollAfterRemoveStaysGone(g: Gallery, id: string, fam: PollFamily, v: Polling.Verdict, lbl: TimeLabel)
    ensures var h := Apply(Apply(g, Remove(id)), PollDone(id, fam, v, lbl));
            id !in h.store && forall k :: 0 <= k < |h.shown| ==> h.shown[k].id != id
  {
  }

  /** A synchronous success or an acceptance that arrives after the user deleted the
      placeholder saves it to the store again, although it stays off the screen: the
      next start-up shows it again. */
  lemma LateSaveAfterRemove(g: Gallery, p: Asset, url: string, secs: int, at: int)
    requires url != ""
    ensures var h := Apply(Apply(g, Remove(p.id)), SyncDone(p, url, secs, at));
            p.id in h.store && h.store[p.id].status == Completed
            && forall k :: 0 <= k < |h.shown| ==> h.shown[k].id != p.id
  {
    var h1 := Apply(g, Remove(p.id));
    forall k | 0 <= k < |h1.shown| ensures h1.shown[k].id != p.id {
    }
  }
}
