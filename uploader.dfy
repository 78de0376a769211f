/**
 * The client-side image uploader of the create-product form: the list of
 * upload entries, the dictionary of local preview URLs, and how file
 * selection, the upload-URL broker's reply, the per-file transport outcomes,
 * removal, "clear all" and unmounting change them.
 *
 * The asynchronous completions of the source are events: each one names the
 * entry it belongs to by id and may arrive in any order, or after the entry
 * was removed.
 */
module Uploader {
  import opened Common
  import opened FormSchema

  const DefaultMaxFiles := 6
  const ImageMimePrefix := "image/"
  const TypeWarning := "Chỉ chấp nhận file ảnh (jpg, png, webp, ...)"
  const MismatchMessage := "Upload URL mismatch"
  const BrokerFallbackMessage := "Lỗi khi upload"
  const BrokerEntryMessage := "Lỗi khi lấy URL upload"
  const UploadFailedMessage := "Upload failed"

  function CapacityMessage(maxFiles: nat): string {
    "Chỉ được upload tối đa " + DecimalString(maxFiles) + " ảnh"
  }

  datatype File = File(name: string, mimeType: string, size: nat)

  /**
   * A selected file with what the browser supplies for it if it is admitted:
   * the `Date.now()` reading that goes into its id and the object URL created
   * for its preview.
   */
  datatype Selection = Selection(file: File, now: nat, preview: string)

  predicate IsImage(f: File) {
    StartsWith(f.mimeType, ImageMimePrefix)
  }

  /** `${file.name}-${file.size}-${Date.now()}`: nothing makes two of these differ. */
  function MakeId(s: Selection): (id: string)
    ensures StartsWith(id, s.file.name + "-")
    ensures var start := |s.file.name| + 1;
            var end := start + |DecimalString(s.file.size)|;
            && end < |id| && id[end] == '-'
            && AllDigits(id[start..end]) && ParseDigits(id[start..end]) == s.file.size
    ensures |id| > |DecimalString(s.now)| && id[|id| - |DecimalString(s.now)|..] == DecimalString(s.now)
  {
    var head := s.file.name + "-";
    var size := DecimalString(s.file.size);
    var r := head + size + "-" + DecimalString(s.now);
    assert r == head + (size + "-" + DecimalString(s.now));
    assert r[..|head|] == head;
    assert r[|head|..|head| + |size|] == size;
    ParseDecimalString(s.file.size);
    r
  }

  /** The selected files whose type starts with `image/`, in order. */
  function Accepted(files: seq<Selection>): seq<Selection> {
    Filter(files, (s: Selection) => IsImage(s.file))
  }

  /** The entry created for an admitted file: uploading, at 0 %, showing its preview. */
  function NewEntry(s: Selection): UploadedImage {
    UploadedImage(Some(MakeId(s)), Some(s.file.name), None, Some(s.preview),
                  Some(Uploading), Some(0), None, None, None, None)
  }

  function NewEntries(acc: seq<Selection>): seq<UploadedImage> {
    MapSeq(NewEntry, acc)
  }

  function IdsOf(acc: seq<Selection>): seq<string> {
    MapSeq(MakeId, acc)
  }

  /** The preview dictionary entries written for `acc`, one after the other. */
  function PreviewsOf(acc: seq<Selection>): map<string, string> {
    if acc == [] then map[]
    else PreviewsOf(acc[..|acc| - 1])[MakeId(acc[|acc| - 1]) := acc[|acc| - 1].preview]
  }

  /** No two entries with an id share it. */
  ghost predicate UniqueIds(images: seq<UploadedImage>) {
    forall a, b :: 0 <= a < b < |images| && images[a].id.Some? ==> images[a].id != images[b].id
  }

  /**
   * The ids about to be created are distinct from each other and from every
   * entry already in the list. The source does not ensure this.
   */
  ghost predicate FreshIds(images: seq<UploadedImage>, acc: seq<Selection>) {
    && (forall a, b :: 0 <= a < b < |acc| ==> MakeId(acc[a]) != MakeId(acc[b]))
    && (forall k, a :: 0 <= k < |images| && 0 <= a < |acc| ==> images[k].id != Some(MakeId(acc[a])))
  }

  // ---- Admission ----------------------------------------------------------

  /** Only image files get entries, all of them, in the order they were selected. */
  lemma AcceptedAreTheImages(files: seq<Selection>)
    ensures IsSubsequence(Accepted(files), files)
    ensures forall k :: 0 <= k < |Accepted(files)| ==> IsImage(Accepted(files)[k].file)
    ensures forall k :: 0 <= k < |files| && IsImage(files[k].file) ==> files[k] in Accepted(files)
  {
    FilterIsSubsequence(files, (s: Selection) => IsImage(s.file));
  }

  /** Each admitted file gets one entry: uploading, progress 0, its preview as url, no key. */
  lemma NewEntriesShape(acc: seq<Selection>)
    ensures |NewEntries(acc)| == |acc|
    ensures forall k :: 0 <= k < |acc| ==>
              var e := NewEntries(acc)[k];
              && e.id == Some(MakeId(acc[k])) && e.status == Some(Uploading) && e.progress == Some(0)
              && e.url == Some(acc[k].preview) && e.key.None? && e.errorMessage.None?
              && e.fileName == Some(acc[k].file.name)
  {
  }

  /** With fresh ids, every admitted file's preview is recorded under its id. */
  lemma PreviewsOfRecordsEach(acc: seq<Selection>)
    requires forall a, b :: 0 <= a < b < |acc| ==> MakeId(acc[a]) != MakeId(acc[b])
    ensures forall k :: 0 <= k < |acc| ==> MakeId(acc[k]) in PreviewsOf(acc) && PreviewsOf(acc)[MakeId(acc[k])] == acc[k].preview
    ensures forall id :: id in PreviewsOf(acc) ==> exists k :: 0 <= k < |acc| && MakeId(acc[k]) == id
  {
    PreviewsOfOnlyAdmitted(acc);
    forall k | 0 <= k < |acc| ensures MakeId(acc[k]) in PreviewsOf(acc) && PreviewsOf(acc)[MakeId(acc[k])] == acc[k].preview {
      PreviewRecorded(acc, k);
    }
  }

  /** The preview of the `k`-th admitted file is recorded under its id. */
  lemma {:induction false} PreviewRecorded(acc: seq<Selection>, k: nat)
    requires forall a, b :: 0 <= a < b < |acc| ==> MakeId(acc[a]) != MakeId(acc[b])
    requires k < |acc|
    ensures MakeId(acc[k]) in PreviewsOf(acc) && PreviewsOf(acc)[MakeId(acc[k])] == acc[k].preview
  {
    var n := |acc| - 1;
    if k < n {
      var init := acc[..n];
      assert forall a :: 0 <= a < n ==> init[a] == acc[a];
      PreviewRecorded(init, k);
      assert MakeId(acc[k]) != MakeId(acc[n]);
    }
  }

  /** Only the admitted files' ids are recorded. */
  lemma {:induction false} PreviewsOfOnlyAdmitted(acc: seq<Selection>)
    ensures forall id :: id in PreviewsOf(acc) ==> exists k :: 0 <= k < |acc| && MakeId(acc[k]) == id
  {
    if acc != [] {
      var init, last := acc[..|acc| - 1], acc[|acc| - 1];
      PreviewsOfOnlyAdmitted(init);
      forall id | id in PreviewsOf(acc) ensures exists k :: 0 <= k < |acc| && MakeId(acc[k]) == id {
        if id == MakeId(last) {
          assert MakeId(acc[|acc| - 1]) == id;
        } else {
          assert PreviewsOf(acc) == PreviewsOf(init)[MakeId(last) := last.preview];
          assert id in PreviewsOf(init);
          var k :| 0 <= k < |init| && MakeId(init[k]) == id;
          assert acc[k] == init[k];
        }
      }
    }
  }

  lemma AppendKeepsUniqueIds(images: seq<UploadedImage>, acc: seq<Selection>)
    requires UniqueIds(images) && FreshIds(images, acc)
    ensures UniqueIds(images + NewEntries(acc))
  {
    var added := NewEntries(acc);
    NewEntriesShape(acc);
    forall a, b | 0 <= a < b < |added| && added[a].id.Some? ensures added[a].id != added[b].id {
      assert added[a].id == Some(MakeId(acc[a])) && added[b].id == Some(MakeId(acc[b]));
    }
    forall k, a | 0 <= k < |images| && 0 <= a < |added| ensures images[k].id != added[a].id {
      assert added[a].id == Some(MakeId(acc[a]));
    }
    UniqueIdsAppend(images, added);
  }

  /** Two lists with distinct ids, sharing none, make one list with distinct ids. */
  lemma UniqueIdsAppend(images: seq<UploadedImage>, added: seq<UploadedImage>)
    requires UniqueIds(images) && UniqueIds(added)
    requires forall k, a :: 0 <= k < |images| && 0 <= a < |added| ==> images[k].id != added[a].id
    ensures UniqueIds(images + added)
  {
    var all := images + added;
    var n := |images|;
    forall a, b | 0 <= a < b < |all| && all[a].id.Some? ensures all[a].id != all[b].id {
      if b >= n {
        assert all[b] == added[b - n];
        if a >= n {
          assert all[a] == added[a - n];
        } else {
          assert all[a] == images[a];
        }
      } else {
        assert all[a] == images[a] && all[b] == images[b];
      }
    }
  }

  /** Extending the admitted prefix by one file extends each derived value by that file's part. */
  lemma PrefixStep(acc: seq<Selection>, i: nat)
    requires i < |acc|
    ensures NewEntries(acc[..i + 1]) == NewEntries(acc[..i]) + [NewEntry(acc[i])]
    ensures IdsOf(acc[..i + 1]) == IdsOf(acc[..i]) + [MakeId(acc[i])]
    ensures PreviewsOf(acc[..i + 1]) == PreviewsOf(acc[..i])[MakeId(acc[i]) := acc[i].preview]
  {
    assert acc[..i + 1] == acc[..i] + [acc[i]];
    MapSeqSnoc(NewEntry, acc[..i], acc[i]);
    MapSeqSnoc(MakeId, acc[..i], acc[i]);
    assert acc[..i + 1][..i] == acc[..i];
  }

  lemma MergeUpdate<K, V>(m: map<K, V>, p: map<K, V>, k: K, v: V)
    ensures (m + p)[k := v] == m + p[k := v]
  {
  }

  /** `released` holds one object URL per id of `done`, and only URLs of recorded previews. */
  ghost predicate ReleasedExactly(recorded: map<string, string>, done: set<string>, released: seq<string>) {
    && done <= recorded.Keys
    && |released| == |done|
    && (forall id :: id in done ==> recorded[id] in released)
    && (forall k :: 0 <= k < |released| ==> released[k] in recorded.Values)
  }

  /** Revoking the preview of one more id keeps the record of what was revoked complete and exact. */
  lemma ReleaseStep(recorded: map<string, string>, done: set<string>, released: seq<string>, id: string)
    requires ReleasedExactly(recorded, done, released)
    requires id in recorded && id !in done
    ensures ReleasedExactly(recorded, done + {id}, released + [recorded[id]])
  {
    var next := released + [recorded[id]];
    assert forall k :: 0 <= k < |released| ==> next[k] == released[k];
  }

  /**
   * The object URLs of every recorded preview, each once, in some order.
   * Two ids never share a preview: every URL comes from its own
   * `URL.createObjectURL` call, so one URL per id is one revocation per URL.
   */
  method ReleaseAll(recorded: map<string, string>) returns (released: seq<string>)
    ensures |released| == |recorded|
    ensures forall id :: id in recorded ==> recorded[id] in released
    ensures forall k :: 0 <= k < |released| ==> released[k] in recorded.Values
  {
    var remaining := recorded.Keys;
    released := [];
    ghost var done: set<string> := {};
    while remaining != {}
      invariant remaining + done == recorded.Keys && remaining !! done
      invariant ReleasedExactly(recorded, done, released)
      decreases remaining
    {
      var id :| id in remaining;
      ReleaseStep(recorded, done, released, id);
      released := released + [recorded[id]];
      remaining := remaining - {id};
      done := done + {id};
    }
    assert done == recorded.Keys;
    assert |recorded.Keys| == |recorded|;
  }

  // ---- Per-id updates -----------------------------------------------------

  /** What the transport reports for one file. */
  datatype Outcome =
    | Progress(percent: int)
    | Uploaded(key: string, publicUrl: string)
    | UploadFailed(message: Option<string>)

  /** An outcome addressed to the entry with id `id`. */
  datatype Event = Event(id: string, outcome: Outcome)

  /** The entry after an outcome for it. */
  function Updated(img: UploadedImage, o: Outcome): (r: UploadedImage)
    ensures r.id == img.id && r.fileName == img.fileName
    ensures o.Progress? ==> r.status == img.status
    ensures !o.Progress? ==> r.status.Some? && r.status.value != Uploading
  {
    match o
    case Progress(p) => img.(progress := Some(p))
    case Uploaded(key, publicUrl) =>
      img.(status := Some(Done), progress := Some(100), url := Some(publicUrl), key := Some(key))
    case UploadFailed(m) =>
      img.(status := Some(Error), errorMessage := Some(if Truthy(m) then m.value else UploadFailedMessage))
  }

  function UpdatedIfMatch(img: UploadedImage, e: Event): UploadedImage {
    if img.id == Some(e.id) then Updated(img, e.outcome) else img
  }

  /** `prev.map(it => it.id === id ? {...} : it)`. */
  function Apply(images: seq<UploadedImage>, e: Event): (r: seq<UploadedImage>)
    ensures |r| == |images|
  {
    if images == [] then [] else [UpdatedIfMatch(images[0], e)] + Apply(images[1..], e)
  }

  lemma ApplyCons(x: UploadedImage, rest: seq<UploadedImage>, e: Event)
    ensures Apply([x] + rest, e) == [UpdatedIfMatch(x, e)] + Apply(rest, e)
  {
    assert ([x] + rest)[1..] == rest;
  }

  lemma RemoveIdCons(x: UploadedImage, rest: seq<UploadedImage>, id: Option<string>)
    ensures RemoveId([x] + rest, id) == (if x.id != id then [x] else []) + RemoveId(rest, id)
  {
    assert ([x] + rest)[1..] == rest;
  }

  /** Applies a run of events in arrival order. */
  function ApplyAll(images: seq<UploadedImage>, events: seq<Event>): (r: seq<UploadedImage>)
    ensures |r| == |images|
    decreases |events|
  {
    if events == [] then images else ApplyAll(Apply(images, events[0]), events[1..])
  }

  /** `prev.filter(it => it.id !== id)`. */
  function RemoveId(images: seq<UploadedImage>, id: Option<string>): (r: seq<UploadedImage>)
    ensures forall k :: 0 <= k < |r| ==> r[k].id != id && r[k] in images
    ensures forall k :: 0 <= k < |images| && images[k].id != id ==> images[k] in r
  {
    Filter(images, (it: UploadedImage) => it.id != id)
  }

  /** An event changes only the entries carrying its id, leaves the list's length and ids alone. */
  lemma {:induction false} ApplyTouchesOnlyItsId(images: seq<UploadedImage>, e: Event)
    ensures |Apply(images, e)| == |images|
    ensures forall k :: 0 <= k < |images| ==> Apply(images, e)[k].id == images[k].id
    ensures forall k :: 0 <= k < |images| && images[k].id != Some(e.id) ==> Apply(images, e)[k] == images[k]
    ensures forall k :: 0 <= k < |images| && images[k].id == Some(e.id) ==> Apply(images, e)[k] == Updated(images[k], e.outcome)
  {
    if images != [] {
      ApplyTouchesOnlyItsId(images[1..], e);
      assert forall k :: 1 <= k < |images| ==> Apply(images, e)[k] == Apply(images[1..], e)[k - 1];
    }
  }

  /** A progress report changes the progress of its entry and nothing else. */
  lemma ProgressChangesOnlyProgress(images: seq<UploadedImage>, id: string, p: int)
    ensures var r := Apply(images, Event(id, Progress(p)));
            |r| == |images| &&
            forall k :: 0 <= k < |images| ==>
              r[k] == (if images[k].id == Some(id) then images[k].(progress := Some(p)) else images[k])
  {
    ApplyTouchesOnlyItsId(images, Event(id, Progress(p)));
  }

  /** A success marks its entry done at 100 % with the object's key and public URL; a failure marks it
      failed with the transport's message or "Upload failed". */
  lemma CompletionOutcome(images: seq<UploadedImage>, e: Event, k: nat)
    requires k < |images| && images[k].id == Some(e.id) && !e.outcome.Progress?
    ensures var r := Apply(images, e)[k];
            && (e.outcome.Uploaded? ==>
                  r.status == Some(Done) && r.progress == Some(100)
                  && r.url == Some(e.outcome.publicUrl) && r.key == Some(e.outcome.key))
            && (e.outcome.UploadFailed? ==>
                  r.status == Some(Error) && r.progress == images[k].progress
                  && r.errorMessage == Some(if Truthy(e.outcome.message) then e.outcome.message.value else "Upload failed"))
  {
    ApplyTouchesOnlyItsId(images, e);
  }

  /** Completions for different entries commute: the arrival order does not matter. */
  lemma {:induction false} EventsCommute(images: seq<UploadedImage>, e1: Event, e2: Event)
    requires e1.id != e2.id
    ensures Apply(Apply(images, e1), e2) == Apply(Apply(images, e2), e1)
  {
    if images != [] {
      EventsCommute(images[1..], e1, e2);
    }
  }

  /** Removing an entry and delivering an event commute; in particular an event for the removed id is lost. */
  lemma {:induction false} RemoveCommutesWithEvent(images: seq<UploadedImage>, id: Option<string>, e: Event)
    ensures RemoveId(Apply(images, e), id) == Apply(RemoveId(images, id), e)
  {
    if images != [] {
      var x := images[0];
      var rest := images[1..];
      assert images == [x] + rest;
      RemoveCommutesWithEvent(rest, id, e);
      ApplyCons(x, rest, e);
      var u := UpdatedIfMatch(x, e);
      assert u.id == x.id;
      RemoveIdCons(u, Apply(rest, e), id);
      RemoveIdCons(x, rest, id);
      if x.id != id {
        ApplyCons(x, RemoveId(rest, id), e);
        assert RemoveId(images, id) == [x] + RemoveId(rest, id);
        assert Apply(images, e) == [u] + Apply(rest, e);
        assert RemoveId(Apply(images, e), id) == [u] + RemoveId(Apply(rest, e), id);
        assert Apply(RemoveId(images, id), e) == [u] + Apply(RemoveId(rest, id), e);
      } else {
        assert RemoveId(images, id) == RemoveId(rest, id);
        assert RemoveId(Apply(images, e), id) == RemoveId(Apply(rest, e), id);
      }
    }
  }

  /** After the removal of an id, an event for that id matches nothing. */
  lemma {:induction false} EventForRemovedIdIsNoop(images: seq<UploadedImage>, id: string, o: Outcome)
    ensures Apply(RemoveId(images, Some(id)), Event(id, o)) == RemoveId(images, Some(id))
  {
    if images != [] {
      var x := images[0];
      var rest := images[1..];
      assert images == [x] + rest;
      EventForRemovedIdIsNoop(rest, id, o);
      RemoveIdCons(x, rest, Some(id));
      if x.id != Some(id) {
        var r := RemoveId(rest, Some(id));
        ApplyCons(x, r, Event(id, o));
        assert RemoveId(images, Some(id)) == [x] + r;
        assert UpdatedIfMatch(x, Event(id, o)) == x;
        assert Apply([x] + r, Event(id, o)) == [x] + Apply(r, Event(id, o));
      } else {
        assert RemoveId(images, Some(id)) == RemoveId(rest, Some(id));
      }
    }
  }

  /** Any run of late events for a removed id leaves the list as the removal left it. */
  lemma {:induction false} LateEventsAfterRemoveAreNoops(images: seq<UploadedImage>, id: string, events: seq<Event>)
    requires forall k :: 0 <= k < |events| ==> events[k].id == id
    ensures ApplyAll(RemoveId(images, Some(id)), events) == RemoveId(images, Some(id))
    decreases |events|
  {
    if events != [] {
      EventForRemovedIdIsNoop(images, id, events[0].outcome);
      LateEventsAfterRemoveAreNoops(images, id, events[1..]);
    }
  }

  /** A run of events never adds, drops or reorders entries, and never changes an id. */
  lemma {:induction false} ApplyAllKeepsIds(images: seq<UploadedImage>, events: seq<Event>)
    ensures |ApplyAll(images, events)| == |images|
    ensures forall k :: 0 <= k < |images| ==> ApplyAll(images, events)[k].id == images[k].id
    decreases |events|
  {
    if events != [] {
      ApplyTouchesOnlyItsId(images, events[0]);
      ApplyAllKeepsIds(Apply(images, events[0]), events[1..]);
    }
  }

  /** A run of events leaves every entry whose id none of them names as it was. */
  lemma {:induction false} ApplyAllLeavesOthers(images: seq<UploadedImage>, events: seq<Event>, k: nat)
    requires k < |images|
    requires forall j :: 0 <= j < |events| ==> images[k].id != Some(events[j].id)
    ensures |ApplyAll(images, events)| == |images| && ApplyAll(images, events)[k] == images[k]
    decreases |events|
  {
    if events != [] {
      ApplyTouchesOnlyItsId(images, events[0]);
      ApplyAllLeavesOthers(Apply(images, events[0]), events[1..], k);
    }
  }

  /** Removal keeps the ids of the remaining entries distinct. */
  lemma {:induction false} RemoveKeepsUniqueIds(images: seq<UploadedImage>, id: Option<string>)
    requires UniqueIds(images)
    ensures UniqueIds(RemoveId(images, id))
  {
    if images != [] {
      var x := images[0];
      var rest := images[1..];
      assert images == [x] + rest;
      UniqueIdsTail(x, rest);
      RemoveKeepsUniqueIds(rest, id);
      RemoveIdCons(x, rest, id);
      if x.id != id {
        UniqueIdsCons(x, RemoveId(rest, id), rest);
      }
    }
  }

  lemma UniqueIdsTail(x: UploadedImage, rest: seq<UploadedImage>)
    requires UniqueIds([x] + rest)
    ensures UniqueIds(rest)
    ensures x.id.Some? ==> forall j :: 0 <= j < |rest| ==> rest[j].id != x.id
  {
    var all := [x] + rest;
    forall a, b | 0 <= a < b < |rest| && rest[a].id.Some? ensures rest[a].id != rest[b].id {
      assert rest[a] == all[a + 1] && rest[b] == all[b + 1];
    }
    forall j | 0 <= j < |rest| && x.id.Some? ensures rest[j].id != x.id {
      assert all[0] == x && rest[j] == all[j + 1];
    }
  }

  lemma UniqueIdsCons(x: UploadedImage, r: seq<UploadedImage>, rest: seq<UploadedImage>)
    requires UniqueIds(r)
    requires forall k :: 0 <= k < |r| ==> r[k] in rest
    requires x.id.Some? ==> forall j :: 0 <= j < |rest| ==> rest[j].id != x.id
    ensures UniqueIds([x] + r)
  {
    var all := [x] + r;
    forall a, b | 0 <= a < b < |all| && all[a].id.Some? ensures all[a].id != all[b].id {
      assert all[b] == r[b - 1];
      if a == 0 {
        var j :| 0 <= j < |rest| && rest[j] == r[b - 1];
      } else {
        assert all[a] == r[a - 1];
      }
    }
  }

  // ---- The upload-URL broker's reply --------------------------------------

  /** One result of the broker: where to PUT the file, its key and its public URL. */
  datatype Target = Target(key: string, uploadUrl: string, publicUrl: string)

  /** The broker call threw (with its message, if any), or it answered with `results`
      (`None` when that is not an array). */
  datatype BrokerReply = Threw(message: Option<string>) | Replied(results: Option<seq<Target>>)

  datatype Checked = Usable(targets: seq<Target>) | Rejected(message: Option<string>)

  /** An answer is usable when it is an array with one result per admitted file. */
  function CheckReply(reply: BrokerReply, expected: nat): (c: Checked)
    ensures c.Usable? <==> reply.Replied? && reply.results.Some? && |reply.results.value| == expected
    ensures c.Usable? ==> c.targets == reply.results.value && |c.targets| == expected
    ensures reply.Replied? && c.Rejected? ==> c.message == Some(MismatchMessage)
    ensures reply.Threw? ==> c == Rejected(reply.message)
  {
    match reply
    case Threw(m) => Rejected(m)
    case Replied(results) =>
      if results.Some? && |results.value| == expected then Usable(results.value)
      else Rejected(Some(MismatchMessage))
  }

  /** The entries of a batch whose broker call failed: each of them fails with the broker message. */
  function FailBatch(images: seq<UploadedImage>, batch: seq<string>): (r: seq<UploadedImage>)
    ensures |r| == |images|
    ensures forall k :: 0 <= k < |images| ==> r[k].id == images[k].id
    ensures forall k :: 0 <= k < |images| && images[k].id.Some? && images[k].id.value in batch ==>
              r[k] == images[k].(status := Some(Error), errorMessage := Some(BrokerEntryMessage))
    ensures forall k :: 0 <= k < |images| && !(images[k].id.Some? && images[k].id.value in batch) ==>
              r[k] == images[k]
  {
    if images == [] then []
    else
      var it := images[0];
      [if it.id.Some? && it.id.value in batch
       then it.(status := Some(Error), errorMessage := Some(BrokerEntryMessage))
       else it] + FailBatch(images[1..], batch)
  }

  /** When only the event at index `i` names entry `k`, that entry ends as that one event leaves it. */
  lemma {:induction false} ApplyAllSingleEvent(images: seq<UploadedImage>, events: seq<Event>, k: nat, i: nat)
    requires k < |images| && i < |events|
    requires images[k].id == Some(events[i].id)
    requires forall j :: 0 <= j < |events| && j != i ==> images[k].id != Some(events[j].id)
    ensures |ApplyAll(images, events)| == |images|
    ensures ApplyAll(images, events)[k] == Updated(images[k], events[i].outcome)
    decreases |events|
  {
    var m := Apply(images, events[0]);
    ApplyTouchesOnlyItsId(images, events[0]);
    if i == 0 {
      assert forall j :: 0 <= j < |events[1..]| ==> m[k].id != Some(events[1..][j].id) by {
        forall j | 0 <= j < |events[1..]| ensures m[k].id != Some(events[1..][j].id) {
          assert events[1..][j] == events[j + 1];
        }
      }
      ApplyAllLeavesOthers(m, events[1..], k);
    } else {
      assert m[k] == images[k];
      forall j | 0 <= j < |events[1..]| && j != i - 1 ensures m[k].id != Some(events[1..][j].id) {
        assert events[1..][j] == events[j + 1];
      }
      ApplyAllSingleEvent(m, events[1..], k, i - 1);
    }
  }

  /** The completions of a batch whose every upload succeeded: file `i` of the batch gets the key and public URL of `ts[i]`. */
  function SuccessEvents(batch: seq<string>, ts: seq<Target>): (es: seq<Event>)
    requires |batch| == |ts|
    ensures |es| == |batch|
    ensures forall i :: 0 <= i < |batch| ==> es[i].id == batch[i] && es[i].outcome.Uploaded?
    decreases |batch|
  {
    if batch == [] then []
    else [Event(batch[0], Uploaded(ts[0].key, ts[0].publicUrl))] + SuccessEvents(batch[1..], ts[1..])
  }

  lemma {:induction false} SuccessEventAt(batch: seq<string>, ts: seq<Target>, i: nat)
    requires |batch| == |ts| && i < |batch|
    ensures SuccessEvents(batch, ts)[i] == Event(batch[i], Uploaded(ts[i].key, ts[i].publicUrl))
    decreases i
  {
    if i > 0 {
      SuccessEventAt(batch[1..], ts[1..], i - 1);
    }
  }

  /**
   * When every upload of a batch succeeds, the entry of file `i` ends done at
   * 100 with the key and public URL of the broker's `i`-th result, and entries
   * outside the batch are untouched.
   */
  lemma BatchSuccessLandsOnItsEntries(images: seq<UploadedImage>, batch: seq<string>, ts: seq<Target>, k: nat)
    requires |batch| == |ts| && k < |images|
    requires forall i, j :: 0 <= i < j < |batch| ==> batch[i] != batch[j]
    ensures |ApplyAll(images, SuccessEvents(batch, ts))| == |images|
    ensures forall i :: 0 <= i < |batch| && images[k].id == Some(batch[i]) ==>
              var r := ApplyAll(images, SuccessEvents(batch, ts))[k];
              && r.id == images[k].id && r.status == Some(Done) && r.progress == Some(100)
              && r.key == Some(ts[i].key) && r.url == Some(ts[i].publicUrl)
    ensures (forall i :: 0 <= i < |batch| ==> images[k].id != Some(batch[i])) ==>
              ApplyAll(images, SuccessEvents(batch, ts))[k] == images[k]
  {
    var es := SuccessEvents(batch, ts);
    if i :| 0 <= i < |batch| && images[k].id == Some(batch[i]) {
      SuccessEventAt(batch, ts, i);
      ApplyAllSingleEvent(images, es, k, i);
      forall i' | 0 <= i' < |batch| && images[k].id == Some(batch[i'])
        ensures i' == i
      {
      }
    } else {
      ApplyAllLeavesOthers(images, es, k);
    }
  }

  // ---- The component's state ----------------------------------------------

  class ImageUploader {
    const maxFiles: nat
    /** The entry list. */
    var images: seq<UploadedImage>
    /** Entry id to the object URL of its local preview. */
    var previews: map<string, string>
    /** The message shown under the drop zone. */
    var error: Option<string>
    /** Every object URL passed to `URL.revokeObjectURL`, in order. */
    var revoked: seq<string>

    /** The props `value` and `maxFiles`, each optional: an absent list is empty, an absent limit is 6. */
    constructor (value: Option<seq<UploadedImage>>, maxFiles: Option<nat>)
      ensures this.maxFiles == (if maxFiles.Some? then maxFiles.value else DefaultMaxFiles)
      ensures images == (if value.Some? then value.value else [])
      ensures previews == map[] && error == None && revoked == []
    {
      this.maxFiles := maxFiles.GetOr(DefaultMaxFiles);
      images := value.GetOr([]);
      previews := map[];
      error := None;
      revoked := [];
    }

    /**
     * `handleFiles` up to the broker call: checks capacity (counting every
     * selected file, images or not), drops non-image files with a warning,
     * records a preview and appends an uploading entry per admitted file.
     * Returns the new entries' ids.
     */
    method HandleFiles(files: Option<seq<Selection>>) returns (batch: seq<string>)
      requires files.Some? && |images| + |files.value| <= maxFiles ==> FreshIds(images, Accepted(files.value))
      modifies this`images, this`previews, this`error
      ensures files.None? ==>
                images == old(images) && previews == old(previews) && error == None && batch == []
      ensures files.Some? && |old(images)| + |files.value| > maxFiles ==>
                && images == old(images) && previews == old(previews) && batch == []
                && error == Some(CapacityMessage(maxFiles))
      ensures files.Some? && |old(images)| + |files.value| <= maxFiles ==>
                var acc := Accepted(files.value);
                && images == old(images) + NewEntries(acc)
                && previews == old(previews) + PreviewsOf(acc)
                && batch == IdsOf(acc)
                && error == (if |acc| == |files.value| then None else Some(TypeWarning))
      ensures |old(images)| <= maxFiles ==> |images| <= maxFiles
      ensures UniqueIds(old(images)) ==> UniqueIds(images)
    {
      error := None;
      batch := [];
      if files.None? {
        return;
      }
      var incoming := files.value;
      if |images| + |incoming| > maxFiles {
        error := Some(CapacityMessage(maxFiles));
        return;
      }
      var acc := Accepted(incoming);
      if |acc| != |incoming| {
        error := Some(TypeWarning);
      }
      batch := Admit(acc);
    }

    /** Records a preview and appends an uploading entry for each admitted file, in order. */
    method Admit(acc: seq<Selection>) returns (batch: seq<string>)
      requires FreshIds(images, acc)
      modifies this`images, this`previews
      ensures images == old(images) + NewEntries(acc)
      ensures previews == old(previews) + PreviewsOf(acc)
      ensures batch == IdsOf(acc)
      ensures UniqueIds(old(images)) ==> UniqueIds(images)
    {
      batch := [];
      var entries: seq<UploadedImage> := [];
      var i := 0;
      while i < |acc|
        modifies this`previews
        invariant 0 <= i <= |acc|
        invariant entries == NewEntries(acc[..i])
        invariant batch == IdsOf(acc[..i])
        invariant previews == old(previews) + PreviewsOf(acc[..i])
      {
        var id := MakeId(acc[i]);
        PrefixStep(acc, i);
        MergeUpdate(old(previews), PreviewsOf(acc[..i]), id, acc[i].preview);
        previews := previews[id := acc[i].preview];
        entries := entries + [NewEntry(acc[i])];
        batch := batch + [id];
        i := i + 1;
      }
      assert acc[..i] == acc;
      if UniqueIds(images) {
        AppendKeepsUniqueIds(images, acc);
      }
      images := images + entries;
    }

    /**
     * The broker's reply for a batch. A usable reply changes nothing and
     * returns the targets; otherwise the error is shown and exactly the
     * batch's entries fail.
     */
    method ResolveBroker(batch: seq<string>, reply: BrokerReply) returns (targets: Option<seq<Target>>)
      modifies this`images, this`error
      ensures match CheckReply(reply, |batch|)
              case Usable(ts) =>
                targets == Some(ts) && images == old(images) && error == old(error)
              case Rejected(m) =>
                && targets.None?
                && images == FailBatch(old(images), batch)
                && error == Some(if Truthy(m) then m.value else BrokerFallbackMessage)
      ensures UniqueIds(old(images)) ==> UniqueIds(images)
    {
      match CheckReply(reply, |batch|)
      case Usable(ts) =>
        targets := Some(ts);
      case Rejected(m) =>
        targets := None;
        error := Some(if Truthy(m) then m.value else BrokerFallbackMessage);
        images := FailBatch(images, batch);
    }

    /** A transport outcome for one entry, applied by id. */
    method Deliver(e: Event)
      modifies this`images
      ensures images == Apply(old(images), e)
      ensures UniqueIds(old(images)) ==> UniqueIds(images)
    {
      ApplyTouchesOnlyItsId(images, e);
      images := Apply(images, e);
    }

    /** `handleRemove`: revokes and forgets the entry's preview, then drops every entry with its id. */
    method Remove(target: UploadedImage)
      modifies this`images, this`previews, this`revoked
      ensures images == RemoveId(old(images), target.id)
      ensures Truthy(target.id) && target.id.value in old(previews) && |old(previews)[target.id.value]| > 0 ==>
                && previews == old(previews) - {target.id.value}
                && revoked == old(revoked) + [old(previews)[target.id.value]]
      ensures !(Truthy(target.id) && target.id.value in old(previews) && |old(previews)[target.id.value]| > 0) ==>
                previews == old(previews) && revoked == old(revoked)
      ensures UniqueIds(old(images)) ==> UniqueIds(images)
    {
      if Truthy(target.id) {
        var id := target.id.value;
        if id in previews && |previews[id]| > 0 {
          revoked := revoked + [previews[id]];
          previews := previews - {id};
        }
      }
      if UniqueIds(images) {
        RemoveKeepsUniqueIds(images, target.id);
      }
      images := RemoveId(images, target.id);
    }

    /** "Clear all": empties the list; the previews stay recorded and are not revoked. */
    method ClearAll()
      modifies this`images
      ensures images == []
    {
      images := [];
    }

    /** The unmount cleanup: revokes every recorded preview once, then empties the dictionary. */
    method Unmount()
      modifies this`previews, this`revoked
      ensures previews == map[]
      ensures |revoked| == |old(revoked)| + |old(previews)|
      ensures revoked[..|old(revoked)|] == old(revoked)
      ensures forall id :: id in old(previews) ==> old(previews)[id] in revoked[|old(revoked)|..]
      ensures forall k :: |old(revoked)| <= k < |revoked| ==> revoked[k] in old(previews).Values
    {
      var released := ReleaseAll(previews);
      revoked := revoked + released;
      assert revoked[..|old(revoked)|] == old(revoked);
      assert revoked[|old(revoked)|..] == released;
      previews := map[];
    }
  }
}
