/**
 The L1 campaign and its way into jobs, told from the trees, the index and the campaign alone: who
 gets an L2 and what it says, what a fan-out reads or which error it stops at, and which jobs follow.
 */
module CampaignMeaning {
  import opened Collections
  import opened Ordering
  import opened ContentHashes
  import opened Wire
  import opened Suit
  import opened Tower
  import opened Orchestrator

  // --- what the tower answers ------------------------------------------------

  /** Each wanted content is in some part of the bank. */
  ghost predicate Has(bank: seq<Part>, want: seq<Part>)
  {
    forall p :: p in want ==> exists have :: have in bank && have.content == p.content
  }

  /** An enabled component with parts, unless the report holds them all and does not say it is disabled. */
  ghost predicate FlashDue(desired: Tree, reported: Option<Tree>, path: string)
  {
    && path in desired.entities && !desired.entities[path].disabled && desired.entities[path].parts != []
    && (reported.Some? && path in reported.value.entities ==>
          || reported.value.entities[path].adminDisabled == Some(true)
          || !Has(reported.value.entities[path].parts, desired.entities[path].parts))
  }

  /** A disabled component that the report says is enabled. */
  ghost predicate DisableDue(desired: Tree, reported: Option<Tree>, path: string)
  {
    && path in desired.entities && desired.entities[path].disabled
    && reported.Some? && path in reported.value.entities
    && reported.value.entities[path].adminDisabled == Some(false)
  }

  ghost predicate Due(desired: Tree, reported: Option<Tree>, path: string)
  {
    FlashDue(desired, reported, path) || DisableDue(desired, reported, path)
  }

  /** One manifest component for one part, with the index entry's data and its key for this device. */
  ghost predicate PartL2(c: SuitComponent, path: string, p: Part, index: Index, device: Recipient)
  {
    && p.content in index
    && c.id == [path, p.id]
    && c.digest == Some(p.content.bytes)
    && c.size == index[p.content].size
    && c.uri == Some(ToPrefixed(index[p.content].outer))
    && c.wrap.Some? && c.wrap.value.recipient.publicKey == device.publicKey && c.wrap.value.recipient.kid == device.kid
    && Unwrap(device, c.wrap.value) == Some((index[p.content].cek, index[p.content].nonce))
  }

  /** One component's L2: a disable of the path that carries nothing, or each part in order. */
  ghost predicate ExactL2(m: Manifest, path: string, want: Entity, index: Index, device: Recipient, sequence: nat)
  {
    && m.sequence == sequence
    && (want.disabled ==>
          && m.disableTarget == Some([path])
          && |m.components| == 1 && m.components[0].id == [path]
          && m.components[0].digest.None? && m.components[0].uri.None? && m.components[0].wrap.None?)
    && (!want.disabled ==>
          && m.disableTarget.None?
          && |m.components| == |want.parts|
          && forall i :: 0 <= i < |want.parts| ==> PartL2(m.components[i], path, want.parts[i], index, device))
  }

  /** An L2 for exactly the due paths, under `#` and the path. */
  ghost predicate ExactL1(c: Campaign, desired: Tree, reported: Option<Tree>, index: Index, device: Recipient, sequence: nat)
  {
    && c.sequence == sequence
    && (forall k :: k in c.integrated ==> exists path :: Due(desired, reported, path) && k == "#" + path)
    && (forall path :: Due(desired, reported, path) ==>
          && "#" + path in c.integrated && c.integrated["#" + path].Cbor?
          && ExactL2(c.integrated["#" + path].value, path, desired.entities[path], index, device, sequence))
  }

  /** A part that has to be flashed is not in the artifact index. */
  ghost predicate LacksArtifact(desired: Tree, reported: Option<Tree>, index: Index)
  {
    exists path, p :: FlashDue(desired, reported, path) && p in desired.entities[path].parts && p.content !in index
  }

  ghost predicate NothingDue(desired: Tree, reported: Option<Tree>)
  {
    forall path :: !Due(desired, reported, path)
  }

  /** No component is to be disabled and none has a part. */
  ghost predicate Blank(desired: Tree)
  {
    forall path :: path in desired.entities ==> !desired.entities[path].disabled && desired.entities[path].parts == []
  }

  lemma {:induction false} HasIsDigests(bank: seq<Part>, want: seq<Part>)
    ensures Has(bank, want) <==> Digests(want) <= Digests(bank)
  {
    if Has(bank, want) {
      forall d | d in Digests(want) ensures d in Digests(bank) {
        var p :| p in want && p.content == d;
        var have :| have in bank && have.content == p.content;
      }
    }
    if Digests(want) <= Digests(bank) {
      forall p | p in want ensures exists have :: have in bank && have.content == p.content {
        assert p.content in Digests(bank);
      }
    }
  }

  lemma {:induction false} VerdictExact(desired: Tree, reported: Option<Tree>, path: string)
    requires path in desired.entities
    ensures Classify(reported, path, desired.entities[path]) == Include <==> FlashDue(desired, reported, path)
    ensures Classify(reported, path, desired.entities[path]) == Disable <==> DisableDue(desired, reported, path)
    ensures Classify(reported, path, desired.entities[path]) == Nothing
            <==> !desired.entities[path].disabled && desired.entities[path].parts == []
  {
    if reported.Some? && path in reported.value.entities {
      HasIsDigests(reported.value.entities[path].parts, desired.entities[path].parts);
    }
  }

  lemma {:induction false} BuiltIsDue(desired: Tree, reported: Option<Tree>)
    ensures forall path :: path in Built(desired, reported) <==> Due(desired, reported, path)
  {
    forall path ensures path in Built(desired, reported) <==> Due(desired, reported, path) {
      if path in desired.entities {
        VerdictExact(desired, reported, path);
      }
    }
  }

  lemma {:induction false} L2ForExact(path: string, want: Entity, index: Index, device: Recipient, sequence: nat)
    requires CanBuild(want, index)
    ensures ExactL2(L2For(path, want, index, device, sequence), path, want, index, device, sequence)
  {
    if !want.disabled {
      var m := L2For(path, want, index, device, sequence);
      forall i | 0 <= i < |want.parts| ensures PartL2(m.components[i], path, want.parts[i], index, device) {
        assert want.parts[i] in want.parts;
      }
    }
  }

  lemma {:induction false} CarriedIsExact(desired: Tree, reported: Option<Tree>, index: Index, device: Recipient, sequence: nat, c: Campaign)
    requires Answers(desired, reported, index, device, sequence, Signed(c))
    ensures ExactL1(c, desired, reported, index, device, sequence)
  {
    BuiltIsDue(desired, reported);
    forall path | Due(desired, reported, path)
      ensures "#" + path in c.integrated && c.integrated["#" + path].Cbor?
      ensures ExactL2(c.integrated["#" + path].value, path, desired.entities[path], index, device, sequence)
    {
      assert path in Built(desired, reported) && Key(path) == "#" + path;
      L2ForExact(path, desired.entities[path], index, device, sequence);
    }
    forall k | k in c.integrated ensures exists path :: Due(desired, reported, path) && k == "#" + path {
      var path :| path in Built(desired, reported) && k == Key(path);
      assert Due(desired, reported, path);
    }
  }

  lemma {:induction false} BuildableExact(desired: Tree, reported: Option<Tree>, index: Index)
    ensures (forall p :: p in Built(desired, reported) ==> CanBuild(desired.entities[p], index)) <==> !LacksArtifact(desired, reported, index)
  {
    BuiltIsDue(desired, reported);
    if path, p :| FlashDue(desired, reported, path) && p in desired.entities[path].parts && p.content !in index {
      assert path in Built(desired, reported) && !CanBuild(desired.entities[path], index);
    } else {
      forall path | path in Built(desired, reported) ensures CanBuild(desired.entities[path], index) {
        assert Due(desired, reported, path);
      }
    }
  }

  lemma {:induction false} SkippedExact(desired: Tree, reported: Option<Tree>)
    requires NothingDue(desired, reported)
    ensures SomeSkipped(desired, reported) <==> !Blank(desired)
  {
    forall path | path in desired.entities
      ensures Classify(reported, path, desired.entities[path]) == Skip
              <==> !(!desired.entities[path].disabled && desired.entities[path].parts == [])
    {
      VerdictExact(desired, reported, path);
      assert !Due(desired, reported, path);
    }
  }

  /**
   The three answers to an L1 request, for every tree, report and index: not found if a part to be
   flashed is not indexed, or there is nothing to flash, disable or skip; an empty body if nothing
   is due but something is there; otherwise a campaign with exactly the due L2s.
   */
  lemma {:induction false} L1AnswerExact(desired: Tree, reported: Option<Tree>, index: Index, device: Recipient, sequence: nat, r: L1Response)
    requires Answers(desired, reported, index, device, sequence, r)
    ensures r == NotFound <==> LacksArtifact(desired, reported, index) || Blank(desired)
    ensures r == NoContent <==> NothingDue(desired, reported) && !Blank(desired)
    ensures r.Signed? ==> ExactL1(r.campaign, desired, reported, index, device, sequence)
  {
    BuiltIsDue(desired, reported);
    BuildableExact(desired, reported, index);
    assert Built(desired, reported) == {} <==> NothingDue(desired, reported) by {
      assert Built(desired, reported) == {} <==> forall path :: path !in Built(desired, reported);
    }
    if NothingDue(desired, reported) {
      SkippedExact(desired, reported);
    }
    assert Blank(desired) ==> NothingDue(desired, reported);
    assert NothingDue(desired, reported) ==> !LacksArtifact(desired, reported, index);
    if r.Signed? {
      CarriedIsExact(desired, reported, index, device, sequence, r.campaign);
    }
  }

  // --- what a fan-out reads --------------------------------------------------

  /** One manifest component read as a part. */
  ghost predicate ReadsAs(c: SuitComponent, p: L1Part)
  {
    && |c.id| >= 2 && p.part == c.id[1]
    && c.uri.Some? && Parse(c.uri.value) == Ok(p.outer)
    && (p.inner.Some? ==> c.digest == Some(p.inner.value.bytes))
    && (p.inner.None? ==> c.digest.None? || |c.digest.value| != 32)
  }

  /** No part segment, or no content address as its uri. */
  ghost predicate Unreadable(c: SuitComponent)
  {
    |c.id| < 2 || c.uri.None? || Parse(c.uri.value).Err?
  }

  /** A disable directive, and no component names a payload. */
  ghost predicate Bare(m: Manifest)
  {
    m.disableTarget.Some? && forall c :: c in m.components ==> c.uri.None?
  }

  /** The component a key stands for: the key without one leading `#`. */
  ghost predicate Names(key: string, component: string)
  {
    if key != [] && key[0] == '#' then key == "#" + component else key == component
  }

  /** The slice of one embedded L2. */
  ghost predicate Slices(key: string, l2: Encoded<Manifest>, c: L1Component)
  {
    && Names(key, c.component)
    && c.envelope == l2 && l2.Cbor?
    && (Bare(l2.value) ==> c.parts == [])
    && (!Bare(l2.value) ==>
          && |c.parts| == |l2.value.components|
          && forall i :: 0 <= i < |c.parts| ==> ReadsAs(l2.value.components[i], c.parts[i]))
  }

  /** The `n`th component of a manifest is the first that cannot be read, and this is why. */
  ghost predicate StopsAt(m: Manifest, n: nat, reason: BadL2Reason)
  {
    && n < |m.components|
    && (forall i :: 0 <= i < n ==> !Unreadable(m.components[i]))
    && var c := m.components[n];
       match reason
       case NotDecodable => false
       case NoPartSegment(position) => |c.id| < 2 && position == n
       case NoUri(part) => |c.id| >= 2 && part == c.id[1] && c.uri.None?
       case NotAnAddress(part, uri) => |c.id| >= 2 && part == c.id[1] && c.uri == Some(uri) && Parse(uri).Err?
  }

  /** Why one embedded L2 is refused. */
  ghost predicate Refuses(key: string, l2: Encoded<Manifest>, e: Error)
  {
    && e.BadL2? && Names(key, e.component)
    && match l2
       case Garbage => e.reason == NotDecodable
       case Cbor(m) => !Bare(m) && exists n: nat :: StopsAt(m, n, e.reason)
  }

  lemma {:induction false} DecodePartExact(component: string, m: Manifest, i: nat)
    requires i < |m.components|
    ensures var r := DecodePart(component, m, i);
            && (r.Ok? ==> ReadsAs(m.components[i], r.value) && !Unreadable(m.components[i]))
            && (r.Err? ==> Unreadable(m.components[i]) && r.error.BadL2? && r.error.component == component
                           && ((forall j :: 0 <= j < i ==> !Unreadable(m.components[j])) ==> StopsAt(m, i, r.error.reason)))
  {
  }

  lemma {:induction false} DecodePartsExact(component: string, m: Manifest, n: nat)
    requires n <= |m.components|
    ensures var r := DecodeParts(component, m, n);
            && (r.Ok? ==> |r.value| == n && forall i :: 0 <= i < n ==> ReadsAs(m.components[i], r.value[i]) && !Unreadable(m.components[i]))
            && (r.Err? ==> r.error.BadL2? && r.error.component == component && exists k: nat :: StopsAt(m, k, r.error.reason))
  {
    if n > 0 {
      DecodePartsExact(component, m, n - 1);
      DecodePartExact(component, m, n - 1);
    }
  }

  lemma {:induction false} FanOneExact(key: string, l2: Encoded<Manifest>)
    ensures FanOne(key, l2).Ok? ==> Slices(key, l2, FanOne(key, l2).value)
    ensures FanOne(key, l2).Err? ==> Refuses(key, l2, FanOne(key, l2).error)
  {
    var component := StripHash(key);
    assert Names(key, component);
    if l2.Cbor? {
      DecodePartsExact(component, l2.value, PartCount(l2.value));
    }
  }

  /** Slices for the first keys, up to where a fan-out stands. */
  ghost predicate SlicesAll(integrated: map<string, Encoded<Manifest>>, keys: seq<string>, components: seq<L1Component>)
    requires forall k :: k in keys ==> k in integrated
  {
    && |components| == |keys|
    && forall i :: 0 <= i < |keys| ==> Slices(keys[i], integrated[keys[i]], components[i])
  }

  ghost predicate Sliceable(key: string, l2: Encoded<Manifest>)
  {
    exists c :: Slices(key, l2, c)
  }

  /** The first key whose L2 cannot be read decides the error. */
  ghost predicate FirstRefused(integrated: map<string, Encoded<Manifest>>, keys: seq<string>, n: nat, e: Error)
    requires forall k :: k in keys ==> k in integrated
  {
    && n < |keys|
    && Refuses(keys[n], integrated[keys[n]], e)
    && forall i :: 0 <= i < n ==> Sliceable(keys[i], integrated[keys[i]])
  }

  ghost predicate StopsFanout(integrated: map<string, Encoded<Manifest>>, keys: seq<string>, e: Error)
    requires forall k :: k in keys ==> k in integrated
  {
    exists n: nat :: FirstRefused(integrated, keys, n, e)
  }

  lemma {:induction false} SlicesSnoc(integrated: map<string, Encoded<Manifest>>, keys: seq<string>, components: seq<L1Component>, key: string, c: L1Component)
    requires (forall k :: k in keys ==> k in integrated) && key in integrated
    requires SlicesAll(integrated, keys, components) && Slices(key, integrated[key], c)
    ensures SlicesAll(integrated, keys + [key], components + [c])
  {
  }

  lemma {:induction false} RefusedSnoc(integrated: map<string, Encoded<Manifest>>, keys: seq<string>, components: seq<L1Component>, key: string, e: Error)
    requires (forall k :: k in keys ==> k in integrated) && key in integrated
    requires SlicesAll(integrated, keys, components) && Refuses(key, integrated[key], e)
    ensures FirstRefused(integrated, keys + [key], |keys|, e)
  {
    forall i | 0 <= i < |keys| ensures Sliceable(keys[i], integrated[keys[i]]) {
      assert Slices(keys[i], integrated[keys[i]], components[i]);
    }
  }

  lemma {:induction false} FanOverExact(integrated: map<string, Encoded<Manifest>>, keys: seq<string>)
    requires forall k :: k in keys ==> k in integrated
    ensures var r := FanOver(integrated, keys);
            && (r.Ok? ==> SlicesAll(integrated, keys, r.value))
            && (r.Err? ==> StopsFanout(integrated, keys, r.error))
  {
    if keys != [] {
      var init, last := keys[..|keys| - 1], keys[|keys| - 1];
      assert last in keys && init + [last] == keys;
      FanOverExact(integrated, init);
      FanOneExact(last, integrated[last]);
      match (FanOver(integrated, init), FanOne(last, integrated[last])) {
        case (Ok(before), Ok(c)) => SlicesSnoc(integrated, init, before, last, c);
        case (Ok(before), Err(e)) =>
          RefusedSnoc(integrated, init, before, last, e);
          assert FirstRefused(integrated, keys, |init|, e);
        case (Err(e), _) =>
          var n: nat :| FirstRefused(integrated, init, n, e);
          assert FirstRefused(integrated, keys, n, e);
      }
    }
  }

  /**
   Fanning out any campaign: one slice per embedded L2, in ascending key order, or the error of the
   first one that cannot be read.
   */
  lemma {:induction false} FanoutExact(l1: Encoded<Campaign>)
    ensures Fanout(l1) == Err(DecodeL1) <==> l1.Garbage?
    ensures l1.Cbor? ==>
              var keys, r := SortedKeys(l1.value.integrated.Keys), Fanout(l1);
              && (r.Ok? ==> SlicesAll(l1.value.integrated, keys, r.value))
              && (r.Err? ==> StopsFanout(l1.value.integrated, keys, r.error))
  {
    if l1.Cbor? {
      FanOverExact(l1.value.integrated, SortedKeys(l1.value.integrated.Keys));
    }
  }

  /** The two outcomes exclude each other, so a fan-out succeeds exactly if every L2 can be read. */
  lemma {:induction false} SliceOrRefusal(key: string, l2: Encoded<Manifest>, c: L1Component, e: Error)
    requires Slices(key, l2, c)
    ensures !Refuses(key, l2, e)
  {
    if e.BadL2? && !Bare(l2.value) {
      forall n: nat | n < |l2.value.components| ensures !StopsAt(l2.value, n, e.reason) {
        assert ReadsAs(l2.value.components[n], c.parts[n]);
      }
    }
  }

  // --- which jobs follow -----------------------------------------------------

  /** Allowlisted, and the device advertises it. */
  predicate Reachable(observed: Tree, only: Allowlist, c: L1Component)
  {
    (only.Some? ==> c.component in only.value) && c.component in observed.entities
  }

  /** It has parts, and the device reports each declared digest somewhere in the component's bank. */
  ghost predicate OnDevice(observed: Tree, c: L1Component)
  {
    && c.parts != [] && c.component in observed.entities
    && forall p :: p in c.parts ==> exists have :: have in observed.entities[c.component].parts && p.inner == Some(have.content)
  }

  /** The job of one slice: its envelope, and nothing else if the device has it all, else every part's ciphertext in order. */
  ghost predicate ExactJob(job: FlashJob, observed: Tree, blobs: Blobs, c: L1Component)
  {
    && job.componentId == c.component && job.envelope == c.envelope
    && (OnDevice(observed, c) ==> job.payloads == [])
    && (!OnDevice(observed, c) ==>
          && |job.payloads| == |c.parts|
          && forall i :: 0 <= i < |c.parts| ==>
               && job.payloads[i].uri == "#" + c.parts[i].part
               && c.parts[i].outer in blobs && job.payloads[i].bytes == blobs[c.parts[i].outer])
  }

  /** The `n`th part is the first whose ciphertext is not stored. */
  ghost predicate FirstMissing(parts: seq<L1Part>, blobs: Blobs, n: nat, outer: ContentHash)
  {
    && n < |parts| && parts[n].outer == outer && outer !in blobs
    && forall i :: 0 <= i < n ==> parts[i].outer in blobs
  }

  ghost predicate Unstored(parts: seq<L1Part>, blobs: Blobs, outer: ContentHash)
  {
    exists n: nat :: FirstMissing(parts, blobs, n, outer)
  }

  /** A slice whose ciphertext is needed, and the first of its parts that is not stored. */
  ghost predicate FirstUnstored(observed: Tree, blobs: Blobs, c: L1Component, outer: ContentHash)
  {
    && !OnDevice(observed, c)
    && Unstored(c.parts, blobs, outer)
  }

  lemma {:induction false} UnchangedExact(observed: Tree, c: L1Component)
    ensures ComponentUnchanged(c, observed) <==> OnDevice(observed, c)
  {
    if OnDevice(observed, c) {
      forall p | p in c.parts
        ensures p.inner.Some? && exists op :: op in observed.entities[c.component].parts && op.content == p.inner.value
      {
        var have :| have in observed.entities[c.component].parts && p.inner == Some(have.content);
      }
    }
    if ComponentUnchanged(c, observed) {
      forall p | p in c.parts ensures exists have :: have in observed.entities[c.component].parts && p.inner == Some(have.content) {
        var op :| op in observed.entities[c.component].parts && op.content == p.inner.value;
      }
    }
  }

  lemma {:induction false} PayloadsExact(parts: seq<L1Part>, blobs: Blobs)
    ensures var r := PayloadsFor(parts, blobs);
            && (r.Ok? ==>
                  && |r.value| == |parts|
                  && forall i :: 0 <= i < |parts| ==>
                       parts[i].outer in blobs && r.value[i].uri == "#" + parts[i].part && r.value[i].bytes == blobs[parts[i].outer])
            && (r.Err? ==> r.error.PayloadMissing? && Unstored(parts, blobs, r.error.outer))
  {
    if parts != [] {
      var init := parts[..|parts| - 1];
      PayloadsExact(init, blobs);
      if PayloadsFor(init, blobs).Err? {
        var n: nat :| FirstMissing(init, blobs, n, PayloadsFor(init, blobs).error.outer);
        assert FirstMissing(parts, blobs, n, PayloadsFor(init, blobs).error.outer);
      } else if parts[|init|].outer !in blobs {
        assert FirstMissing(parts, blobs, |init|, parts[|init|].outer);
      }
    }
  }

  lemma {:induction false} JobForExact(c: L1Component, observed: Tree, blobs: Blobs)
    ensures var r := JobFor(c, observed, blobs);
            && (r.Ok? ==> ExactJob(r.value, observed, blobs, c))
            && (r.Err? ==> r.error.PayloadMissing? && FirstUnstored(observed, blobs, c, r.error.outer))
  {
    UnchangedExact(observed, c);
    PayloadsExact(c.parts, blobs);
  }

  ghost predicate ExactJobs(jobs: seq<FlashJob>, observed: Tree, blobs: Blobs, components: seq<L1Component>)
  {
    && |jobs| == |components|
    && forall i :: 0 <= i < |components| ==> ExactJob(jobs[i], observed, blobs, components[i])
  }

  /** The `n`th slice is the first that lacks ciphertext; the ones before it have their jobs. */
  ghost predicate FirstLacking(observed: Tree, blobs: Blobs, components: seq<L1Component>, n: nat, outer: ContentHash)
  {
    && n < |components| && FirstUnstored(observed, blobs, components[n], outer)
    && exists jobs :: ExactJobs(jobs, observed, blobs, components[..n])
  }

  /**
   For any slices: the reachable ones become jobs, one each and in their order, or the error names
   the first missing ciphertext of the first that lacks one.
   */
  lemma {:induction false} JobListExact(components: seq<L1Component>, observed: Tree, only: Allowlist, blobs: Blobs)
    ensures var r, reached := Jobs(components, observed, only, blobs), Filter((c: L1Component) => Reachable(observed, only, c), components);
            && (r.Ok? ==> ExactJobs(r.value, observed, blobs, reached))
            && (r.Err? ==> r.error.PayloadMissing? && exists n: nat :: FirstLacking(observed, blobs, reached, n, r.error.outer))
  {
    if components != [] {
      var init, last := components[..|components| - 1], components[|components| - 1];
      JobListExact(init, observed, only, blobs);
      if Reachable(observed, only, last) {
        JobForExact(last, observed, blobs);
        var before, reached := Jobs(init, observed, only, blobs), Filter((c: L1Component) => Reachable(observed, only, c), init);
        NextJob(before, JobFor(last, observed, blobs), observed, blobs, reached, last);
        assert Filter((c: L1Component) => Reachable(observed, only, c), components) == reached + [last];
        assert Eligible(last, observed, only);
      } else {
        assert !Eligible(last, observed, only);
        assert Jobs(components, observed, only, blobs) == Jobs(init, observed, only, blobs);
        assert Filter((c: L1Component) => Reachable(observed, only, c), components) == Filter((c: L1Component) => Reachable(observed, only, c), init);
      }
    }
  }

  lemma {:induction false} NextJob(before: Result<seq<FlashJob>, Error>, next: Result<FlashJob, Error>, observed: Tree, blobs: Blobs,
                                   reached: seq<L1Component>, last: L1Component)
    requires before.Ok? ==> ExactJobs(before.value, observed, blobs, reached)
    requires before.Err? ==> before.error.PayloadMissing? && exists n: nat :: FirstLacking(observed, blobs, reached, n, before.error.outer)
    requires next.Ok? ==> ExactJob(next.value, observed, blobs, last)
    requires next.Err? ==> next.error.PayloadMissing? && FirstUnstored(observed, blobs, last, next.error.outer)
    ensures before.Err? ==> exists n: nat :: FirstLacking(observed, blobs, reached + [last], n, before.error.outer)
    ensures before.Ok? && next.Err? ==> exists n: nat :: FirstLacking(observed, blobs, reached + [last], n, next.error.outer)
    ensures before.Ok? && next.Ok? ==> ExactJobs(before.value + [next.value], observed, blobs, reached + [last])
  {
    if before.Err? {
      var n: nat :| FirstLacking(observed, blobs, reached, n, before.error.outer);
      assert (reached + [last])[..n] == reached[..n];
      assert FirstLacking(observed, blobs, reached + [last], n, before.error.outer);
    } else if next.Err? {
      assert (reached + [last])[..|reached|] == reached;
      assert ExactJobs(before.value, observed, blobs, (reached + [last])[..|reached|]);
      assert FirstLacking(observed, blobs, reached + [last], |reached|, next.error.outer);
    }
  }

  /** Where a failed list of jobs stopped. */
  lemma {:induction false} JobsFailAt(components: seq<L1Component>, observed: Tree, only: Allowlist, blobs: Blobs) returns (i: nat)
    requires Jobs(components, observed, only, blobs).Err?
    ensures i < |components| && Reachable(observed, only, components[i])
    ensures var e := Jobs(components, observed, only, blobs).error; e.PayloadMissing? && FirstUnstored(observed, blobs, components[i], e.outer)
  {
    JobListExact(components, observed, only, blobs);
    var reached := Filter((c: L1Component) => Reachable(observed, only, c), components);
    var n: nat :| FirstLacking(observed, blobs, reached, n, Jobs(components, observed, only, blobs).error.outer);
    var c := reached[n];
    assert c in reached;
    FilterMembers((c: L1Component) => Reachable(observed, only, c), components, c);
    i :| 0 <= i < |components| && components[i] == c;
  }
}
