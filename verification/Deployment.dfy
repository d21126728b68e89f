/**
 From upload to vehicle: publishing and planning meet in the artifact index. A desired tree whose
 contents were all uploaded can always be planned, and each payload a job pushes opens, under the
 key its manifest carries, to bytes with the digest its manifest declares.
 */
module Deployment {
  import opened Collections
  import opened Ordering
  import opened ContentHashes
  import opened Wire
  import opened Suit
  import opened Tower
  import opened Orchestrator
  import opened CampaignMeaning
  import opened Pipeline
  import BlobStore
  import Publish
  import Uploads = PublishTheorems
  import Race = ConcurrentPublish
  import Races = ConcurrentTheorems

  /** Fetching a payload reads the blob directory. */
  ghost predicate Serves(blobs: Blobs, files: BlobStore.Files)
  {
    forall outer :: BlobStore.BlobName(outer) in files ==> outer in blobs && blobs[outer] == files[BlobStore.BlobName(outer)]
  }

  /** The stored artifact opens to bytes with the content's hash. */
  ghost predicate Deliverable<S>(env: Uploads.Env<S>, hub: Hub, content: ContentHash)
  {
    && content in hub.index
    && var e := hub.index[content];
       && e.outer in hub.blobs
       && OpensTo(env, e.cek, e.nonce, hub.blobs[e.outer], content, e.size)
  }

  /** Decrypting and decompressing gives bytes of this hash and size. */
  ghost predicate OpensTo<S>(env: Uploads.Env<S>, cek: Bytes, nonce: Bytes, blob: Bytes, content: ContentHash, size: nat)
  {
    var plain := Publish.Opened(env.cipher, env.codec, cek, nonce, blob);
    plain.Some? && env.sha(plain.value) == content && |plain.value| == size
  }

  /** Every part of every enabled entity can be delivered. */
  ghost predicate Stocked<S>(env: Uploads.Env<S>, hub: Hub, desired: Tree)
  {
    forall path, p :: path in desired.entities && !desired.entities[path].disabled && p in desired.entities[path].parts ==> Deliverable(env, hub, p.content)
  }

  lemma {:induction false} FetchableIsDeliverable<S>(env: Uploads.Env<S>, hub: Hub, files: BlobStore.Files, plain: Bytes)
    requires Uploads.Fetchable(env, hub.index, files, plain) && Serves(hub.blobs, files)
    ensures Deliverable(env, hub, env.sha(plain))
  {
  }

  // --- what stocks a hub -----------------------------------------------------

  ghost predicate Uploaded<S>(env: Uploads.Env<S>, uploads: seq<Uploads.Upload>, content: ContentHash)
  {
    exists u :: u in uploads && Publish.Intact(u.body) && content == env.sha(Publish.Plain(u.body))
  }

  /** Uploads made one after another stock a hub with all they held. */
  lemma {:induction false} StockedByUploads<S(!new)>(env: Uploads.Env<S>, uploads: seq<Uploads.Upload>, hub: Hub, desired: Tree)
    requires Publish.Lossless(env.codec) && Uploads.Separated(env, uploads)
    requires hub.index == Uploads.After(env, uploads).0 && Serves(hub.blobs, Uploads.After(env, uploads).1)
    requires forall path, p :: path in desired.entities && !desired.entities[path].disabled && p in desired.entities[path].parts ==> Uploaded(env, uploads, p.content)
    ensures Stocked(env, hub, desired)
  {
    forall path, p | path in desired.entities && !desired.entities[path].disabled && p in desired.entities[path].parts
      ensures Deliverable(env, hub, p.content)
    {
      assert Uploaded(env, uploads, p.content);
      var u :| u in uploads && Publish.Intact(u.body) && p.content == env.sha(Publish.Plain(u.body));
      Uploads.EveryUploadFetchable(env, uploads, u);
      FetchableIsDeliverable(env, hub, Uploads.After(env, uploads).1, Publish.Plain(u.body));
    }
  }

  /** Some publisher has been answered for this content. */
  ghost predicate Answered<S>(env: Uploads.Env<S>, s: Race.State, content: ContentHash)
  {
    exists i: nat :: i < |s.procs| && s.procs[i].phase.Returned? && Publish.Intact(s.procs[i].upload.body)
                     && content == env.sha(Publish.Plain(s.procs[i].upload.body))
  }

  /** And so do publishers racing each other, as soon as they are answered, at any point of any interleaving. */
  lemma {:induction false} StockedByRun<S(!new)>(env: Uploads.Env<S>, past: seq<Uploads.Upload>, run: seq<Race.State>, k: nat, hub: Hub, desired: Tree)
    requires Publish.Lossless(env.codec) && Races.ValidRun(env, run) && Race.Init(env, past, run[0]) && k < |run|
    requires Uploads.Separated(env, Race.Sources(past, run[k].procs))
    requires hub.index == run[k].index && Serves(hub.blobs, run[k].files)
    requires forall path, p :: path in desired.entities && !desired.entities[path].disabled && p in desired.entities[path].parts ==> Answered(env, run[k], p.content)
    ensures Stocked(env, hub, desired)
  {
    forall path, p | path in desired.entities && !desired.entities[path].disabled && p in desired.entities[path].parts
      ensures Deliverable(env, hub, p.content)
    {
      AnsweredIsDeliverable(env, past, run, k, hub, p.content);
    }
  }

  lemma {:induction false} AnsweredIsDeliverable<S(!new)>(env: Uploads.Env<S>, past: seq<Uploads.Upload>, run: seq<Race.State>, k: nat, hub: Hub, content: ContentHash)
    requires Publish.Lossless(env.codec) && Races.ValidRun(env, run) && Race.Init(env, past, run[0]) && k < |run|
    requires Uploads.Separated(env, Race.Sources(past, run[k].procs))
    requires hub.index == run[k].index && Serves(hub.blobs, run[k].files) && Answered(env, run[k], content)
    ensures Deliverable(env, hub, content)
  {
    var s := run[k];
    var i: nat :| i < |s.procs| && s.procs[i].phase.Returned? && Publish.Intact(s.procs[i].upload.body)
                  && content == env.sha(Publish.Plain(s.procs[i].upload.body));
    Races.ReturnedIsFetchable(env, past, run, k, k, i);
    FetchableIsDeliverable(env, hub, s.files, Publish.Plain(s.procs[i].upload.body));
  }

  // --- what a stocked hub can do ---------------------------------------------

  /** No payload and no index entry is ever missing: planning fails only for lack of a target. */
  lemma {:induction false} StockedCanBePlanned<S>(env: Uploads.Env<S>, desired: Tree, reported: Option<Tree>, observed: Tree, hub: Hub, only: Allowlist)
    requires Stocked(env, hub, desired)
    ensures PlanSucceeds(desired, reported, observed, hub, only) <==> !Blank(desired)
  {
    SomethingExact(desired, reported);
    assert Buildable(desired, reported, hub);
    TargetsPushable(env, desired, observed, hub, SortedKeys(Targets(desired, reported, observed, only)));
  }

  lemma {:induction false} TargetsPushable<S>(env: Uploads.Env<S>, desired: Tree, observed: Tree, hub: Hub, paths: seq<string>)
    requires forall p :: p in paths ==> p in desired.entities
    requires Stocked(env, hub, desired)
    ensures Pushable(desired, observed, hub, paths)
  {
  }

  /** A job ships nothing, or one payload per manifest component: payload i opens, for this device, under the key manifest component i wraps, to bytes with component i's digest and size. */
  ghost predicate PayloadsOpen<S>(env: Uploads.Env<S>, device: Recipient, job: FlashJob)
  {
    job.envelope.Cbor?
    && var m := job.envelope.value;
       (job.payloads == [] || |job.payloads| == |m.components|)
       && forall i :: 0 <= i < |job.payloads| ==> PayloadOpens(env, device, m.components[i], job.payloads[i].bytes)
  }

  /** The device unwraps the content key and decrypts: a key wrapped for anyone else stops it. */
  ghost predicate PayloadOpens<S>(env: Uploads.Env<S>, device: Recipient, c: SuitComponent, blob: Bytes)
  {
    c.wrap.Some? && Unwrap(device, c.wrap.value).Some?
    && var (cek, iv) := Unwrap(device, c.wrap.value).value;
       var plain := Publish.Opened(env.cipher, env.codec, cek, iv, blob);
       plain.Some? && c.digest == Some(env.sha(plain.value).bytes) && c.size == |plain.value|
  }

  /** Every job of every plan carries payloads the target device can open and verify by the job's own manifest. */
  lemma {:induction false} PlannedPayloadsOpen<S>(env: Uploads.Env<S>, desired: Tree, reported: Option<Tree>, observed: Tree, hub: Hub,
                                                  only: Allowlist, jobs: seq<FlashJob>, job: FlashJob)
    requires Stocked(env, hub, desired) && Planned(desired, reported, observed, hub, only, jobs) && job in jobs
    ensures PayloadsOpen(env, hub.device, job)
  {
    var paths := SortedKeys(Targets(desired, reported, observed, only));
    var i :| 0 <= i < |jobs| && jobs[i] == job;
    assert IsDirectJob(jobs[i], desired, observed, hub, paths[i]);
    DirectJobOpens(env, desired.entities[paths[i]], observed, hub, paths[i], job);
  }

  lemma {:induction false} DirectJobOpens<S>(env: Uploads.Env<S>, want: Entity, observed: Tree, hub: Hub, path: string, job: FlashJob)
    requires CanBuild(want, hub.index) && CanPush(observed, path, want, hub.index, hub.blobs)
    requires job == DirectJob(observed, path, want, hub.index, hub.blobs, hub.device, hub.sequence)
    requires forall p :: !want.disabled && p in want.parts ==> Deliverable(env, hub, p.content)
    ensures PayloadsOpen(env, hub.device, job)
  {
    if !ManifestOnly(observed, path, want) {
      var components := ComponentsFor(path, EnvelopeParts(want.parts, hub.index), hub.device);
      forall i | 0 <= i < |want.parts| ensures PayloadOpens(env, hub.device, components[i], job.payloads[i].bytes) {
        assert Deliverable(env, hub, want.parts[i].content);
      }
    }
  }
}
