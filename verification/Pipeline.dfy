/**
 The whole push plan: Tower 2 assembles a signed L1 for a reported state, the orchestrator fans
 it out and diffs it against the observed state. The plan is shown equal to a direct
 description that never mentions the L1, and the L1 is shown to decode to what was put in.
 */
module Pipeline {
  import opened Collections
  import opened Ordering
  import opened ContentHashes
  import opened Wire
  import opened Suit
  import opened Tower
  import opened Orchestrator
  import opened CampaignMeaning

  // --- the L1 decodes to what was built --------------------------------------

  function SliceParts(parts: seq<Part>, index: Index): (r: seq<L1Part>)
    requires Indexed(parts, index)
    ensures |r| == |parts|
    ensures forall i :: 0 <= i < |parts| ==>
      r[i] == L1Part(parts[i].id, index[parts[i].content].outer, Some(parts[i].content))
  {
    seq(|parts|, i requires 0 <= i < |parts| =>
      L1Part(parts[i].id, index[parts[i].content].outer, Some(parts[i].content)))
  }

  /** What one component should look like after fan-out. */
  function SliceOf(path: string, entity: Entity, index: Index, device: Recipient, sequence: nat): L1Component
    requires CanBuild(entity, index)
  {
    L1Component(
      path,
      Cbor(L2For(path, entity, index, device, sequence)),
      if entity.disabled then [] else SliceParts(entity.parts, index))
  }

  lemma {:induction false} DecodeBuiltPart(path: string, m: Manifest, i: nat, p: Part, entry: ArtifactEntry, device: Recipient)
    requires i < |m.components| && m.components[i] == ComponentFor(path, EnvelopePartFor(p, entry), device)
    ensures DecodePart(path, m, i) == Ok(L1Part(p.id, entry.outer, Some(p.content)))
  {
    PrintParseRoundTrip(entry.outer);
  }

  lemma {:induction false} DecodeEach(path: string, m: Manifest, parts: seq<L1Part>, n: nat)
    requires n <= |m.components| == |parts| && forall i :: 0 <= i < |parts| ==> DecodePart(path, m, i) == Ok(parts[i])
    ensures DecodeParts(path, m, n) == Ok(parts[..n])
  {
    if n > 0 {
      DecodeEach(path, m, parts, n - 1);
      assert DecodePart(path, m, n - 1) == Ok(parts[n - 1]);
      assert parts[..n] == parts[..n - 1] + [parts[n - 1]];
    }
  }

  lemma {:induction false} DecodeBuiltParts(path: string, m: Manifest, parts: seq<Part>, index: Index, device: Recipient)
    requires Indexed(parts, index) && m.components == ComponentsFor(path, EnvelopeParts(parts, index), device)
    ensures DecodeParts(path, m, |parts|) == Ok(SliceParts(parts, index))
  {
    var slice := SliceParts(parts, index);
    forall i | 0 <= i < |parts| ensures DecodePart(path, m, i) == Ok(slice[i]) {
      DecodeBuiltPart(path, m, i, parts[i], index[parts[i].content], device);
    }
    DecodeEach(path, m, slice, |parts|);
    assert slice[..|parts|] == slice;
  }

  lemma {:induction false} FanOneBuilt(path: string, entity: Entity, index: Index, device: Recipient, sequence: nat)
    requires CanBuild(entity, index)
    ensures FanOne(Key(path), Cbor(L2For(path, entity, index, device, sequence)))
         == Ok(SliceOf(path, entity, index, device, sequence))
  {
    assert StripHash(Key(path)) == path;
    if !entity.disabled {
      DecodeBuiltParts(path, L2For(path, entity, index, device, sequence), entity.parts, index, device);
    }
  }

  function Keys(paths: seq<string>): (r: seq<string>)
    ensures |r| == |paths| && forall i :: 0 <= i < |paths| ==> r[i] == Key(paths[i])
  {
    seq(|paths|, i requires 0 <= i < |paths| => Key(paths[i]))
  }

  /** The `#` prefix keeps the order, so the campaign's keys come out in path order. */
  lemma {:induction false} KeysAscend(built: set<string>)
    ensures SortedKeys(set p | p in built :: Key(p)) == Keys(SortedKeys(built))
  {
    var keys := set p | p in built :: Key(p);
    var paths := SortedKeys(built);
    SortedKeysAscending(built);
    SortedKeysAscending(keys);
    forall i, j | 0 <= i < j < |paths| ensures Less(Keys(paths)[i], Keys(paths)[j]) {
      LessCons('#', paths[i], paths[j]);
    }
    forall k ensures k in Keys(paths) <==> k in keys {
      if k in keys {
        var p :| p in built && k == Key(p);
        assert p in paths;
        var i :| 0 <= i < |paths| && paths[i] == p;
        assert Keys(paths)[i] == k;
      }
    }
    AscendingUnique(SortedKeys(keys), Keys(paths));
  }

  /** The listed components, sliced one by one. */
  ghost predicate SlicedAs(components: seq<L1Component>, paths: seq<string>, tree: Tree, index: Index, device: Recipient, sequence: nat)
    requires forall p :: p in paths ==> p in tree.entities && CanBuild(tree.entities[p], index)
  {
    && |components| == |paths|
    && forall i :: 0 <= i < |paths| ==>
         components[i] == SliceOf(paths[i], tree.entities[paths[i]], index, device, sequence)
  }

  lemma {:induction false} FanSnoc(integrated: map<string, Encoded<Manifest>>, keys: seq<string>, components: seq<L1Component>, key: string, c: L1Component)
    requires (forall k :: k in keys ==> k in integrated) && key in integrated
    requires FanOver(integrated, keys) == Ok(components) && FanOne(key, integrated[key]) == Ok(c)
    ensures FanOver(integrated, keys + [key]) == Ok(components + [c])
  {
    assert (keys + [key])[..|keys|] == keys;
  }

  /** Each key's L2 fans out to the component listed with it. */
  ghost predicate Fans(integrated: map<string, Encoded<Manifest>>, keys: seq<string>, components: seq<L1Component>)
  {
    && |keys| == |components|
    && forall i :: 0 <= i < |keys| ==> keys[i] in integrated && FanOne(keys[i], integrated[keys[i]]) == Ok(components[i])
  }

  lemma {:induction false} FansInit(integrated: map<string, Encoded<Manifest>>, keys: seq<string>, components: seq<L1Component>)
    requires Fans(integrated, keys, components) && keys != []
    ensures Fans(integrated, keys[..|keys| - 1], components[..|keys| - 1])
  {
  }

  lemma {:induction false} FanEach(integrated: map<string, Encoded<Manifest>>, keys: seq<string>, components: seq<L1Component>)
    requires (forall k :: k in keys ==> k in integrated) && Fans(integrated, keys, components)
    ensures FanOver(integrated, keys) == Ok(components)
  {
    if keys != [] {
      var init, last := keys[..|keys| - 1], keys[|keys| - 1];
      var before, c := components[..|keys| - 1], components[|keys| - 1];
      assert keys == init + [last] && components == before + [c];
      FansInit(integrated, keys, components);
      FanEach(integrated, init, before);
      FanSnoc(integrated, init, before, last, c);
    }
  }

  lemma {:induction false} FanOverBuilt(c: Campaign, paths: seq<string>, tree: Tree, index: Index, device: Recipient, sequence: nat)
    requires forall p :: p in paths ==> p in tree.entities && CanBuild(tree.entities[p], index)
    requires forall p :: p in paths ==>
      Key(p) in c.integrated && c.integrated[Key(p)] == Cbor(L2For(p, tree.entities[p], index, device, sequence))
    ensures FanOver(c.integrated, Keys(paths)).Ok?
    ensures SlicedAs(FanOver(c.integrated, Keys(paths)).value, paths, tree, index, device, sequence)
  {
    var slices := seq(|paths|, i requires 0 <= i < |paths| =>
      assert paths[i] in paths; SliceOf(paths[i], tree.entities[paths[i]], index, device, sequence));
    forall i | 0 <= i < |paths|
      ensures Keys(paths)[i] in c.integrated && FanOne(Keys(paths)[i], c.integrated[Keys(paths)[i]]) == Ok(slices[i])
    {
      assert paths[i] in paths;
      FanOneBuilt(paths[i], tree.entities[paths[i]], index, device, sequence);
    }
    FanEach(c.integrated, Keys(paths), slices);
  }

  /**
   Round trip: fanning out an assembled campaign gives back exactly the built components in
   ascending path order, a firmware component with its parts in manifest order and their own
   (id, outer, inner), a disable with no parts.
   */
  lemma {:induction false} L1RoundTrip(tree: Tree, reported: Option<Tree>, index: Index, device: Recipient, sequence: nat, c: Campaign)
    requires Answers(tree, reported, index, device, sequence, Signed(c))
    ensures Fanout(Cbor(c)).Ok?
    ensures SlicedAs(Fanout(Cbor(c)).value, SortedKeys(Built(tree, reported)), tree, index, device, sequence)
  {
    var built := Built(tree, reported);
    KeysAscend(built);
    FanOverBuilt(c, SortedKeys(built), tree, index, device, sequence);
  }

  // --- jobs, described directly ----------------------------------------------

  /** Built by the tower, allowlisted, and advertised by the device. */
  function Targets(desired: Tree, reported: Option<Tree>, observed: Tree, only: Allowlist): set<string>
  {
    set p | p in Built(desired, reported) && Allowed(only, p) && p in observed.entities
  }

  predicate ManifestOnly(observed: Tree, path: string, want: Entity)
  {
    want.disabled || EntityAgreed(observed, path, want)
  }

  /** The blob of every part is stored. */
  predicate Served(parts: seq<Part>, index: Index, blobs: Blobs)
    requires Indexed(parts, index)
  {
    forall p :: p in parts ==> index[p.content].outer in blobs
  }

  function DirectPayloads(parts: seq<Part>, index: Index, blobs: Blobs): (r: seq<Payload>)
    requires Indexed(parts, index) && Served(parts, index, blobs)
    ensures |r| == |parts|
    ensures forall i :: 0 <= i < |parts| ==> r[i] == Payload("#" + parts[i].id, blobs[index[parts[i].content].outer])
  {
    seq(|parts|, i requires 0 <= i < |parts| => Payload("#" + parts[i].id, blobs[index[parts[i].content].outer]))
  }

  predicate CanPush(observed: Tree, path: string, want: Entity, index: Index, blobs: Blobs)
    requires CanBuild(want, index)
  {
    ManifestOnly(observed, path, want) || Served(want.parts, index, blobs)
  }

  function DirectJob(observed: Tree, path: string, want: Entity, index: Index, blobs: Blobs, device: Recipient, sequence: nat): FlashJob
    requires CanBuild(want, index) && CanPush(observed, path, want, index, blobs)
  {
    FlashJob(
      path,
      Cbor(L2For(path, want, index, device, sequence)),
      if ManifestOnly(observed, path, want) then [] else DirectPayloads(want.parts, index, blobs))
  }

  datatype Hub = Hub(index: Index, blobs: Blobs, device: Recipient, sequence: nat)

  ghost predicate Buildable(desired: Tree, reported: Option<Tree>, hub: Hub)
  {
    forall p :: p in Built(desired, reported) ==> CanBuild(desired.entities[p], hub.index)
  }

  ghost predicate Pushable(desired: Tree, observed: Tree, hub: Hub, paths: seq<string>)
  {
    forall p :: p in paths ==>
      && p in desired.entities && CanBuild(desired.entities[p], hub.index)
      && CanPush(observed, p, desired.entities[p], hub.index, hub.blobs)
  }

  /** One direct job per listed path, in the listed order. */
  ghost predicate JobsAre(jobs: seq<FlashJob>, desired: Tree, observed: Tree, hub: Hub, paths: seq<string>)
  {
    && Pushable(desired, observed, hub, paths)
    && |jobs| == |paths|
    && forall i :: 0 <= i < |paths| ==> IsDirectJob(jobs[i], desired, observed, hub, paths[i])
  }

  ghost predicate IsDirectJob(job: FlashJob, desired: Tree, observed: Tree, hub: Hub, path: string)
  {
    && path in desired.entities && CanBuild(desired.entities[path], hub.index)
    && CanPush(observed, path, desired.entities[path], hub.index, hub.blobs)
    && job == DirectJob(observed, path, desired.entities[path], hub.index, hub.blobs, hub.device, hub.sequence)
  }

  /** The plan: one job per target, in ascending path order. */
  ghost predicate Planned(desired: Tree, reported: Option<Tree>, observed: Tree, hub: Hub, only: Allowlist, jobs: seq<FlashJob>)
  {
    && Buildable(desired, reported, hub)
    && JobsAre(jobs, desired, observed, hub, SortedKeys(Targets(desired, reported, observed, only)))
  }

  lemma {:induction false} PayloadsForSlice(parts: seq<Part>, index: Index, blobs: Blobs, n: nat)
    requires Indexed(parts, index) && n <= |parts|
    ensures var r := PayloadsFor(SliceParts(parts, index)[..n], blobs);
            && (r.Ok? <==> Served(parts[..n], index, blobs))
            && (r.Ok? ==> r.value == DirectPayloads(parts[..n], index, blobs))
  {
    var slice := SliceParts(parts, index);
    if n > 0 {
      PayloadsForSlice(parts, index, blobs, n - 1);
      assert slice[..n][..n - 1] == slice[..n - 1];
      assert parts[..n] == parts[..n - 1] + [parts[n - 1]];
    }
  }

  lemma {:induction false} UnchangedIsAgreed(path: string, want: Entity, index: Index, device: Recipient, sequence: nat, observed: Tree)
    requires CanBuild(want, index) && !want.disabled && want.parts != []
    ensures ComponentUnchanged(SliceOf(path, want, index, device, sequence), observed) <==> EntityAgreed(observed, path, want)
  {
    var slice := SliceParts(want.parts, index);
    if EntityAgreed(observed, path, want) {
      forall p | p in slice
        ensures p.inner.Some? && exists op :: op in observed.entities[path].parts && op.content == p.inner.value
      {
        var i :| 0 <= i < |slice| && slice[i] == p;
        assert want.parts[i] in want.parts;
        assert want.parts[i].content in Digests(want.parts);
      }
    } else if path in observed.entities {
      var d :| d in Digests(want.parts) && d !in Digests(observed.entities[path].parts);
      var i :| 0 <= i < |want.parts| && want.parts[i].content == d;
      assert slice[i] in slice && slice[i].inner == Some(d);
    }
  }

  /** One slice: the tower's digest join and the orchestrator's decide alike, and the payloads are the stored blobs. */
  lemma {:induction false} JobForSlice(path: string, want: Entity, index: Index, device: Recipient, sequence: nat, observed: Tree, blobs: Blobs)
    requires CanBuild(want, index) && (want.disabled || want.parts != []) && path in observed.entities
    ensures var r := JobFor(SliceOf(path, want, index, device, sequence), observed, blobs);
            && (r.Ok? <==> CanPush(observed, path, want, index, blobs))
            && (r.Ok? ==> r.value == DirectJob(observed, path, want, index, blobs, device, sequence))
  {
    if !want.disabled {
      UnchangedIsAgreed(path, want, index, device, sequence, observed);
      PayloadsForSlice(want.parts, index, blobs, |want.parts|);
      var slice := SliceParts(want.parts, index);
      assert slice[..|want.parts|] == slice && want.parts[..|want.parts|] == want.parts;
    }
  }

  /** The listed paths that are allowlisted and advertised, in the listed order. */
  function EligibleOf(paths: seq<string>, observed: Tree, only: Allowlist): seq<string>
  {
    if paths == [] then []
    else
      var last := paths[|paths| - 1];
      EligibleOf(paths[..|paths| - 1], observed, only)
      + if Allowed(only, last) && last in observed.entities then [last] else []
  }

  lemma {:induction false} EligibleMembers(paths: seq<string>, observed: Tree, only: Allowlist)
    ensures forall p :: p in EligibleOf(paths, observed, only) <==> p in paths && Allowed(only, p) && p in observed.entities
    ensures Ascending(paths) ==> Ascending(EligibleOf(paths, observed, only))
  {
    if paths != [] {
      var init, last := paths[..|paths| - 1], paths[|paths| - 1];
      EligibleMembers(init, observed, only);
      assert forall p :: p in paths <==> p in init || p == last;
      var r := EligibleOf(init, observed, only);
      if Ascending(paths) {
        assert Ascending(init);
        forall i | 0 <= i < |r| ensures Less(r[i], last) {
          assert r[i] in init;
        }
      }
    }
  }

  lemma {:induction false} EligibleAreTargets(desired: Tree, reported: Option<Tree>, observed: Tree, only: Allowlist)
    ensures EligibleOf(SortedKeys(Built(desired, reported)), observed, only)
         == SortedKeys(Targets(desired, reported, observed, only))
  {
    var paths, targets := SortedKeys(Built(desired, reported)), Targets(desired, reported, observed, only);
    SortedKeysAscending(Built(desired, reported));
    SortedKeysAscending(targets);
    EligibleMembers(paths, observed, only);
    AscendingUnique(EligibleOf(paths, observed, only), SortedKeys(targets));
  }

  ghost predicate Shippable(desired: Tree, paths: seq<string>, hub: Hub)
  {
    forall p :: p in paths ==>
      && p in desired.entities && CanBuild(desired.entities[p], hub.index)
      && (desired.entities[p].disabled || desired.entities[p].parts != [])
  }

  lemma {:induction false} PushableSnoc(desired: Tree, observed: Tree, hub: Hub, paths: seq<string>, last: string)
    requires last in desired.entities && CanBuild(desired.entities[last], hub.index)
    ensures Pushable(desired, observed, hub, paths + [last])
            <==> && Pushable(desired, observed, hub, paths)
                 && CanPush(observed, last, desired.entities[last], hub.index, hub.blobs)
  {
    assert forall p :: p in paths + [last] <==> p in paths || p == last;
  }

  /** From slices to jobs: the plan succeeds exactly when every eligible component can be pushed. */
  lemma {:induction false} JobsOfSlices(components: seq<L1Component>, paths: seq<string>, desired: Tree, observed: Tree, hub: Hub, only: Allowlist)
    requires Shippable(desired, paths, hub)
    requires SlicedAs(components, paths, desired, hub.index, hub.device, hub.sequence)
    ensures var r := Jobs(components, observed, only, hub.blobs);
            && (r.Ok? <==> Pushable(desired, observed, hub, EligibleOf(paths, observed, only)))
            && (r.Ok? ==> JobsAre(r.value, desired, observed, hub, EligibleOf(paths, observed, only)))
  {
    if paths != [] {
      var init, last := paths[..|paths| - 1], paths[|paths| - 1];
      assert last in paths;
      assert Shippable(desired, init, hub);
      JobsOfSlices(components[..|paths| - 1], init, desired, observed, hub, only);
      if Allowed(only, last) && last in observed.entities {
        EligibleSlice(components, paths, desired, observed, hub, only);
      } else {
        assert !Eligible(components[|paths| - 1], observed, only);
      }
    }
  }

  lemma {:induction false} EligibleSlice(components: seq<L1Component>, paths: seq<string>, desired: Tree, observed: Tree, hub: Hub, only: Allowlist)
    requires paths != [] && Shippable(desired, paths, hub)
    requires SlicedAs(components, paths, desired, hub.index, hub.device, hub.sequence)
    requires var last := paths[|paths| - 1]; Allowed(only, last) && last in observed.entities
    requires var r, init := Jobs(components[..|paths| - 1], observed, only, hub.blobs), EligibleOf(paths[..|paths| - 1], observed, only);
             && (r.Ok? <==> Pushable(desired, observed, hub, init))
             && (r.Ok? ==> JobsAre(r.value, desired, observed, hub, init))
    ensures var r, eligible := Jobs(components, observed, only, hub.blobs), EligibleOf(paths, observed, only);
            && (r.Ok? <==> Pushable(desired, observed, hub, eligible))
            && (r.Ok? ==> JobsAre(r.value, desired, observed, hub, eligible))
  {
    var last := paths[|paths| - 1];
    assert last in paths;
    assert components[|paths| - 1] == SliceOf(last, desired.entities[last], hub.index, hub.device, hub.sequence);
    JobForSlice(last, desired.entities[last], hub.index, hub.device, hub.sequence, observed, hub.blobs);
    PushableSnoc(desired, observed, hub, EligibleOf(paths[..|paths| - 1], observed, only), last);
  }

  datatype PlanError = TargetNotFound | BadCampaign(error: Error)

  /** When planning succeeds: nothing to build but something skipped, or everything buildable and pushable. */
  ghost predicate PlanSucceeds(desired: Tree, reported: Option<Tree>, observed: Tree, hub: Hub, only: Allowlist)
  {
    && Buildable(desired, reported, hub)
    && Pushable(desired, observed, hub, SortedKeys(Targets(desired, reported, observed, only)))
    && (Built(desired, reported) != {} || SomeSkipped(desired, reported))
  }

  /**
   The shared plan source, end to end: ask for the L1, decode it, diff it. An empty body means no
   jobs. Its result is exactly the direct plan.
   */
  method L1FlashPlan(desired: Tree, reported: Option<Tree>, observed: Tree, hub: Hub, only: Allowlist)
    returns (r: Result<seq<FlashJob>, PlanError>)
    ensures r.Ok? <==> PlanSucceeds(desired, reported, observed, hub, only)
    ensures r.Ok? ==> Planned(desired, reported, observed, hub, only, r.value)
    ensures r.Ok? ==> ExactPlan(r.value, desired, reported, observed, hub, only)
    ensures r == Err(TargetNotFound) <==> LacksArtifact(desired, reported, hub.index) || Blank(desired)
    ensures r.Err? && r.error != TargetNotFound ==>
              r.error.error.PayloadMissing? && BlobMissing(desired, reported, observed, hub, only, r.error.error.outer)
  {
    var l1 := ChannelTargetL1(desired, reported, hub.index, hub.device, hub.sequence);
    L1AnswerExact(desired, reported, hub.index, hub.device, hub.sequence, l1);
    match l1
    case NotFound =>
      r := Err(TargetNotFound);
    case NoContent =>
      assert Targets(desired, reported, observed, only) == {};
      r := Ok([]);
      PlannedIsExact(desired, reported, observed, hub, only, []);
    case Signed(c) =>
      var fanned := FanoutL1(Cbor(c));
      PlanFromL1(desired, reported, observed, hub, only, c);
      var jobs := L1Jobs(fanned.value, observed, only, hub.blobs);
      r := if jobs.Ok? then Ok(jobs.value) else Err(BadCampaign(jobs.error));
  }

  lemma {:induction false} PlanFromL1(desired: Tree, reported: Option<Tree>, observed: Tree, hub: Hub, only: Allowlist, c: Campaign)
    requires Answers(desired, reported, hub.index, hub.device, hub.sequence, Signed(c))
    ensures Fanout(Cbor(c)).Ok?
    ensures var r := Jobs(Fanout(Cbor(c)).value, observed, only, hub.blobs);
            && (r.Ok? <==> PlanSucceeds(desired, reported, observed, hub, only))
            && (r.Ok? ==> Planned(desired, reported, observed, hub, only, r.value) && ExactPlan(r.value, desired, reported, observed, hub, only))
            && (r.Err? ==> r.error.PayloadMissing? && BlobMissing(desired, reported, observed, hub, only, r.error.outer))
  {
    JobsFromL1(desired, reported, observed, hub, only, c);
    var r := Jobs(Fanout(Cbor(c)).value, observed, only, hub.blobs);
    if r.Ok? {
      PlannedIsExact(desired, reported, observed, hub, only, r.value);
    } else {
      NamesMissingBlob(desired, reported, observed, hub, only, c);
    }
  }

  lemma {:induction false} JobsFromL1(desired: Tree, reported: Option<Tree>, observed: Tree, hub: Hub, only: Allowlist, c: Campaign)
    requires Answers(desired, reported, hub.index, hub.device, hub.sequence, Signed(c))
    ensures Fanout(Cbor(c)).Ok?
    ensures var r := Jobs(Fanout(Cbor(c)).value, observed, only, hub.blobs);
            && (r.Ok? <==> PlanSucceeds(desired, reported, observed, hub, only))
            && (r.Ok? ==> Planned(desired, reported, observed, hub, only, r.value))
  {
    L1RoundTrip(desired, reported, hub.index, hub.device, hub.sequence, c);
    var paths := SortedKeys(Built(desired, reported));
    assert Buildable(desired, reported, hub);
    BuiltIsShippable(desired, reported, hub);
    JobsOfSlices(Fanout(Cbor(c)).value, paths, desired, observed, hub, only);
    EligibleAreTargets(desired, reported, observed, only);
  }

  lemma {:induction false} BuiltIsShippable(desired: Tree, reported: Option<Tree>, hub: Hub)
    requires Buildable(desired, reported, hub)
    ensures Shippable(desired, SortedKeys(Built(desired, reported)), hub)
  {
  }

  // --- what a plan holds -----------------------------------------------------

  /** Due by the report, allowlisted, and advertised by the device. */
  ghost predicate Reached(desired: Tree, reported: Option<Tree>, observed: Tree, only: Allowlist, path: string)
  {
    && Due(desired, reported, path)
    && (only.Some? ==> path in only.value)
    && path in observed.entities
  }

  /** The device has the path and reports all the wanted contents in its bank. */
  ghost predicate Installed(observed: Tree, path: string, want: Entity)
  {
    path in observed.entities && Has(observed.entities[path].parts, want.parts)
  }

  /** The payload of one part: its stored blob under `#` and the part's id. */
  ghost predicate ExactPayload(payload: Payload, p: Part, hub: Hub)
  {
    && p.content in hub.index && hub.index[p.content].outer in hub.blobs
    && payload.uri == "#" + p.id
    && payload.bytes == hub.blobs[hub.index[p.content].outer]
  }

  /** One component's job: its own L2, with no payload for a disable or an installed component, else one per part. */
  ghost predicate PlannedJob(job: FlashJob, desired: Tree, observed: Tree, hub: Hub)
  {
    && job.componentId in desired.entities
    && var want := desired.entities[job.componentId];
       && job.envelope.Cbor? && ExactL2(job.envelope.value, job.componentId, want, hub.index, hub.device, hub.sequence)
       && (want.disabled || Installed(observed, job.componentId, want) ==> job.payloads == [])
       && (!want.disabled && !Installed(observed, job.componentId, want) ==>
             && |job.payloads| == |want.parts|
             && forall i :: 0 <= i < |want.parts| ==> ExactPayload(job.payloads[i], want.parts[i], hub))
  }

  ghost predicate HasJob(jobs: seq<FlashJob>, path: string)
  {
    exists i :: 0 <= i < |jobs| && jobs[i].componentId == path
  }

  /** A job for exactly the reached components, in ascending path order. */
  ghost predicate ExactPlan(jobs: seq<FlashJob>, desired: Tree, reported: Option<Tree>, observed: Tree, hub: Hub, only: Allowlist)
  {
    && (forall i, j :: 0 <= i < j < |jobs| ==> Less(jobs[i].componentId, jobs[j].componentId))
    && (forall path :: HasJob(jobs, path) <==> Reached(desired, reported, observed, only, path))
    && (forall i :: 0 <= i < |jobs| ==> PlannedJob(jobs[i], desired, observed, hub))
  }

  /** A part that has to be pushed: its component is reached, enabled and not installed. */
  ghost predicate Pushes(desired: Tree, reported: Option<Tree>, observed: Tree, only: Allowlist, path: string, p: Part)
  {
    && Reached(desired, reported, observed, only, path)
    && !desired.entities[path].disabled && !Installed(observed, path, desired.entities[path])
    && p in desired.entities[path].parts
  }

  /** The blob of a part that has to be pushed is not stored. */
  ghost predicate BlobMissing(desired: Tree, reported: Option<Tree>, observed: Tree, hub: Hub, only: Allowlist, outer: ContentHash)
  {
    && outer !in hub.blobs
    && exists path, p :: Pushes(desired, reported, observed, only, path, p) && p.content in hub.index && hub.index[p.content].outer == outer
  }

  lemma {:induction false} TargetsAreReached(desired: Tree, reported: Option<Tree>, observed: Tree, only: Allowlist)
    ensures forall path :: path in Targets(desired, reported, observed, only) <==> Reached(desired, reported, observed, only, path)
  {
    BuiltIsDue(desired, reported);
  }

  lemma {:induction false} DirectJobExact(desired: Tree, observed: Tree, hub: Hub, path: string, job: FlashJob)
    requires IsDirectJob(job, desired, observed, hub, path)
    ensures job.componentId == path && PlannedJob(job, desired, observed, hub)
  {
    var want := desired.entities[path];
    L2ForExact(path, want, hub.index, hub.device, hub.sequence);
    if path in observed.entities {
      HasIsDigests(observed.entities[path].parts, want.parts);
    }
    if !ManifestOnly(observed, path, want) {
      forall i | 0 <= i < |want.parts| ensures ExactPayload(job.payloads[i], want.parts[i], hub) {
        assert want.parts[i] in want.parts;
      }
    }
  }

  /** A plan is the reached components' own jobs, each told from the trees, the index and the blobs. */
  lemma {:induction false} PlannedIsExact(desired: Tree, reported: Option<Tree>, observed: Tree, hub: Hub, only: Allowlist, jobs: seq<FlashJob>)
    requires Planned(desired, reported, observed, hub, only, jobs)
    ensures ExactPlan(jobs, desired, reported, observed, hub, only)
  {
    var targets := Targets(desired, reported, observed, only);
    SortedKeysAscending(targets);
    TargetsAreReached(desired, reported, observed, only);
    JobsAreExact(desired, observed, hub, SortedKeys(targets), jobs);
    JobsOfPaths(SortedKeys(targets), jobs);
  }

  lemma {:induction false} JobsAreExact(desired: Tree, observed: Tree, hub: Hub, paths: seq<string>, jobs: seq<FlashJob>)
    requires JobsAre(jobs, desired, observed, hub, paths)
    ensures forall i :: 0 <= i < |jobs| ==> jobs[i].componentId == paths[i] && PlannedJob(jobs[i], desired, observed, hub)
  {
    forall i | 0 <= i < |jobs| ensures jobs[i].componentId == paths[i] && PlannedJob(jobs[i], desired, observed, hub) {
      DirectJobExact(desired, observed, hub, paths[i], jobs[i]);
    }
  }

  lemma {:induction false} JobsOfPaths(paths: seq<string>, jobs: seq<FlashJob>)
    requires Ascending(paths) && |jobs| == |paths| && forall i :: 0 <= i < |jobs| ==> jobs[i].componentId == paths[i]
    ensures forall i, j :: 0 <= i < j < |jobs| ==> Less(jobs[i].componentId, jobs[j].componentId)
    ensures forall path :: HasJob(jobs, path) <==> path in paths
  {
    forall path ensures HasJob(jobs, path) <==> path in paths {
      if path in paths {
        var i :| 0 <= i < |paths| && paths[i] == path;
        assert jobs[i].componentId == path;
      }
    }
  }

  /** A failed fetch names a blob that the plan needs and the store lacks. */
  lemma {:induction false} NamesMissingBlob(desired: Tree, reported: Option<Tree>, observed: Tree, hub: Hub, only: Allowlist, c: Campaign)
    requires Answers(desired, reported, hub.index, hub.device, hub.sequence, Signed(c))
    requires Fanout(Cbor(c)).Ok? && Jobs(Fanout(Cbor(c)).value, observed, only, hub.blobs).Err?
    ensures var e := Jobs(Fanout(Cbor(c)).value, observed, only, hub.blobs).error;
            e.PayloadMissing? && BlobMissing(desired, reported, observed, hub, only, e.outer)
  {
    L1RoundTrip(desired, reported, hub.index, hub.device, hub.sequence, c);
    var components := Fanout(Cbor(c)).value;
    var i := JobsFailAt(components, observed, only, hub.blobs);
    assert SortedKeys(Built(desired, reported))[i] in Built(desired, reported);
    SliceLacksBlob(desired, reported, observed, hub, only, SortedKeys(Built(desired, reported))[i], components[i],
                   Jobs(components, observed, only, hub.blobs).error.outer);
  }

  lemma {:induction false} SliceLacksBlob(desired: Tree, reported: Option<Tree>, observed: Tree, hub: Hub, only: Allowlist, path: string,
                                          slice: L1Component, outer: ContentHash)
    requires path in Built(desired, reported) && CanBuild(desired.entities[path], hub.index)
    requires slice == SliceOf(path, desired.entities[path], hub.index, hub.device, hub.sequence)
    requires Reachable(observed, only, slice) && FirstUnstored(observed, hub.blobs, slice, outer)
    ensures BlobMissing(desired, reported, observed, hub, only, outer)
  {
    BuiltIsDue(desired, reported);
    var want := desired.entities[path];
    var n: nat :| FirstMissing(slice.parts, hub.blobs, n, outer);
    UnchangedIsAgreed(path, want, hub.index, hub.device, hub.sequence, observed);
    UnchangedExact(observed, slice);
    HasIsDigests(observed.entities[path].parts, want.parts);
    assert want.parts[n] in want.parts;
    assert Pushes(desired, reported, observed, only, path, want.parts[n]);
  }

  /** When planning succeeds, told from the inputs: every part due is indexed, every blob needed is stored, and the target is not blank. */
  lemma {:induction false} PlanSucceedsExact(desired: Tree, reported: Option<Tree>, observed: Tree, hub: Hub, only: Allowlist)
    ensures PlanSucceeds(desired, reported, observed, hub, only)
            <==> && !LacksArtifact(desired, reported, hub.index) && !Blank(desired)
                 && forall outer :: !BlobMissing(desired, reported, observed, hub, only, outer)
  {
    BuiltIsDue(desired, reported);
    BuildableExact(desired, reported, hub.index);
    SomethingExact(desired, reported);
    if Buildable(desired, reported, hub) {
      PushableExact(desired, reported, observed, hub, only);
    }
  }

  lemma {:induction false} SomethingExact(desired: Tree, reported: Option<Tree>)
    ensures Built(desired, reported) != {} || SomeSkipped(desired, reported) <==> !Blank(desired)
  {
    BuiltIsDue(desired, reported);
    if NothingDue(desired, reported) {
      SkippedExact(desired, reported);
      assert forall path :: path !in Built(desired, reported);
    } else {
      var path :| Due(desired, reported, path);
      assert path in Built(desired, reported);
    }
  }

  lemma {:induction false} PushableExact(desired: Tree, reported: Option<Tree>, observed: Tree, hub: Hub, only: Allowlist)
    requires Buildable(desired, reported, hub)
    ensures Pushable(desired, observed, hub, SortedKeys(Targets(desired, reported, observed, only)))
            <==> forall outer :: !BlobMissing(desired, reported, observed, hub, only, outer)
  {
    TargetsAreReached(desired, reported, observed, only);
    var paths := SortedKeys(Targets(desired, reported, observed, only));
    if Pushable(desired, observed, hub, paths) {
      forall path, p | Pushes(desired, reported, observed, only, path, p) ensures hub.index[p.content].outer in hub.blobs {
        assert path in paths;
        CanPushExact(observed, path, desired.entities[path], hub);
      }
    }
    if forall outer :: !BlobMissing(desired, reported, observed, hub, only, outer) {
      forall path | path in paths ensures CanPush(observed, path, desired.entities[path], hub.index, hub.blobs) {
        CanPushExact(observed, path, desired.entities[path], hub);
        forall p | Pushes(desired, reported, observed, only, path, p) ensures hub.index[p.content].outer in hub.blobs {
          assert !BlobMissing(desired, reported, observed, hub, only, hub.index[p.content].outer);
        }
      }
    }
  }

  lemma {:induction false} CanPushExact(observed: Tree, path: string, want: Entity, hub: Hub)
    requires CanBuild(want, hub.index)
    ensures CanPush(observed, path, want, hub.index, hub.blobs)
            <==> want.disabled || Installed(observed, path, want) || forall p :: p in want.parts ==> hub.index[p.content].outer in hub.blobs
  {
    if path in observed.entities {
      HasIsDigests(observed.entities[path].parts, want.parts);
    }
  }
}
