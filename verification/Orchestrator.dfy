/**
 The orchestrator's side: decode a signed L1 into per-component slices, turn the slices into
 flash jobs against the vehicle's observed state, and group the jobs into campaign steps.
 */
module Orchestrator {
  import opened Collections
  import opened Ordering
  import opened ContentHashes
  import opened Wire
  import opened Suit

  datatype L1Part = L1Part(part: string, outer: ContentHash, inner: Option<ContentHash>)

  datatype L1Component = L1Component(component: string, envelope: Encoded<Manifest>, parts: seq<L1Part>)

  datatype BadL2Reason = NotDecodable | NoPartSegment(position: nat) | NoUri(part: string) | NotAnAddress(part: string, uri: string)

  datatype Error = DecodeL1 | BadL2(component: string, reason: BadL2Reason) | PayloadMissing(outer: ContentHash)

  // --- fan-out ---------------------------------------------------------------

  /** One manifest component read back as a part; a digest that is not 32 bytes counts as none. */
  function DecodePart(component: string, m: Manifest, i: nat): Result<L1Part, Error>
    requires i < |m.components|
  {
    var c := m.components[i];
    if |c.id| < 2 then Err(BadL2(component, NoPartSegment(i)))
    else if c.uri.None? then Err(BadL2(component, NoUri(c.id[1])))
    else
      match Parse(c.uri.value)
      case Err(_) => Err(BadL2(component, NotAnAddress(c.id[1], c.uri.value)))
      case Ok(outer) =>
        Ok(L1Part(c.id[1], outer,
                  if c.digest.Some? && |c.digest.value| == 32 then Some(ContentHash(c.digest.value)) else None))
  }

  function DecodeParts(component: string, m: Manifest, n: nat): Result<seq<L1Part>, Error>
    requires n <= |m.components|
  {
    if n == 0 then Ok([])
    else
      match DecodeParts(component, m, n - 1)
      case Err(e) => Err(e)
      case Ok(parts) =>
        match DecodePart(component, m, n - 1)
        case Err(e) => Err(e)
        case Ok(p) => Ok(parts + [p])
  }

  function StripHash(key: string): string
  {
    if key != [] && key[0] == '#' then key[1..] else key
  }

  /** A disable-shaped manifest has nothing to push, so none of its components is read as a part. */
  function PartCount(m: Manifest): nat
  {
    if m.disableTarget.Some? && !m.HasFirmware() then 0 else |m.components|
  }

  function FanOne(key: string, l2: Encoded<Manifest>): Result<L1Component, Error>
  {
    var component := StripHash(key);
    match l2
    case Garbage => Err(BadL2(component, NotDecodable))
    case Cbor(m) =>
      match DecodeParts(component, m, PartCount(m))
      case Err(e) => Err(e)
      case Ok(parts) => Ok(L1Component(component, l2, parts))
  }

  function FanOver(integrated: map<string, Encoded<Manifest>>, keys: seq<string>): Result<seq<L1Component>, Error>
    requires forall k :: k in keys ==> k in integrated
  {
    if keys == [] then Ok([])
    else
      match FanOver(integrated, keys[..|keys| - 1])
      case Err(e) => Err(e)
      case Ok(init) =>
        match FanOne(keys[|keys| - 1], integrated[keys[|keys| - 1]])
        case Err(e) => Err(e)
        case Ok(c) => Ok(init + [c])
  }

  function Fanout(l1: Encoded<Campaign>): Result<seq<L1Component>, Error>
  {
    match l1
    case Garbage => Err(DecodeL1)
    case Cbor(c) => FanOver(c.integrated, SortedKeys(c.integrated.Keys))
  }

  lemma {:induction false} DecodePartsStops(component: string, m: Manifest, n: nat, k: nat)
    requires n <= k <= |m.components| && DecodeParts(component, m, n).Err?
    ensures DecodeParts(component, m, k) == Err(DecodeParts(component, m, n).error)
  {
    if n < k {
      DecodePartsStops(component, m, n, k - 1);
    }
  }

  method DecodeManifest(component: string, m: Manifest) returns (r: Result<seq<L1Part>, Error>)
    ensures r == DecodeParts(component, m, PartCount(m))
  {
    var count := PartCount(m);
    var parts: seq<L1Part> := [];
    for i := 0 to count
      invariant DecodeParts(component, m, i) == Ok(parts)
    {
      var c := m.components[i];
      if |c.id| < 2 {
        DecodePartsStops(component, m, i + 1, count);
        return Err(BadL2(component, NoPartSegment(i)));
      }
      if c.uri.None? {
        DecodePartsStops(component, m, i + 1, count);
        return Err(BadL2(component, NoUri(c.id[1])));
      }
      var outer := Parse(c.uri.value);
      if outer.Err? {
        DecodePartsStops(component, m, i + 1, count);
        return Err(BadL2(component, NotAnAddress(c.id[1], c.uri.value)));
      }
      var inner := if c.digest.Some? && |c.digest.value| == 32 then Some(ContentHash(c.digest.value)) else None;
      parts := parts + [L1Part(c.id[1], outer.value, inner)];
    }
    return Ok(parts);
  }

  lemma {:induction false} FanOverStops(integrated: map<string, Encoded<Manifest>>, keys: seq<string>, n: nat)
    requires forall k :: k in keys ==> k in integrated
    requires n <= |keys| && FanOver(integrated, keys[..n]).Err?
    ensures FanOver(integrated, keys) == Err(FanOver(integrated, keys[..n]).error)
    decreases |keys|
  {
    if n < |keys| {
      var init := keys[..|keys| - 1];
      assert init[..n] == keys[..n];
      FanOverStops(integrated, init, n);
    } else {
      assert keys[..n] == keys;
    }
  }

  method FanoutKeys(integrated: map<string, Encoded<Manifest>>, keys: seq<string>) returns (r: Result<seq<L1Component>, Error>)
    requires forall k :: k in keys ==> k in integrated
    ensures r == FanOver(integrated, keys)
  {
    var components: seq<L1Component> := [];
    for i := 0 to |keys|
      invariant FanOver(integrated, keys[..i]) == Ok(components)
    {
      var key, l2 := keys[i], integrated[keys[i]];
      assert keys[..i + 1][..i] == keys[..i];
      var component := StripHash(key);
      if l2.Garbage? {
        FanOverStops(integrated, keys, i + 1);
        return Err(BadL2(component, NotDecodable));
      }
      var parts := DecodeManifest(component, l2.value);
      if parts.Err? {
        FanOverStops(integrated, keys, i + 1);
        return Err(parts.error);
      }
      components := components + [L1Component(component, l2, parts.value)];
    }
    assert keys[..|keys|] == keys;
    return Ok(components);
  }

  method FanoutL1(l1: Encoded<Campaign>) returns (r: Result<seq<L1Component>, Error>)
    ensures r == Fanout(l1)
  {
    if l1.Garbage? {
      return Err(DecodeL1);
    }
    r := FanoutKeys(l1.value.integrated, SortedKeys(l1.value.integrated.Keys));
  }

  // --- jobs ------------------------------------------------------------------

  datatype Payload = Payload(uri: string, bytes: Bytes)

  datatype FlashJob = FlashJob(componentId: string, envelope: Encoded<Manifest>, payloads: seq<Payload>)

  type Blobs = map<ContentHash, Bytes>

  type Allowlist = Option<seq<string>>

  predicate Allowed(only: Allowlist, component: string)
  {
    only.Some? ==> component in only.value
  }

  /** Every declared digest is known and held somewhere in the component's own bank. */
  predicate ComponentUnchanged(c: L1Component, observed: Tree)
  {
    && c.component in observed.entities
    && c.parts != []
    && forall p :: p in c.parts ==>
         p.inner.Some? && exists op :: op in observed.entities[c.component].parts && op.content == p.inner.value
  }

  function PayloadsFor(parts: seq<L1Part>, blobs: Blobs): Result<seq<Payload>, Error>
  {
    if parts == [] then Ok([])
    else
      var p := parts[|parts| - 1];
      match PayloadsFor(parts[..|parts| - 1], blobs)
      case Err(e) => Err(e)
      case Ok(init) =>
        if p.outer in blobs then Ok(init + [Payload("#" + p.part, blobs[p.outer])]) else Err(PayloadMissing(p.outer))
  }

  /** Allowlisted and advertised by the device right now. */
  predicate Eligible(c: L1Component, observed: Tree, only: Allowlist)
  {
    Allowed(only, c.component) && c.component in observed.entities
  }

  function JobFor(c: L1Component, observed: Tree, blobs: Blobs): Result<FlashJob, Error>
  {
    if ComponentUnchanged(c, observed) then Ok(FlashJob(c.component, c.envelope, []))
    else
      match PayloadsFor(c.parts, blobs)
      case Err(e) => Err(e)
      case Ok(payloads) => Ok(FlashJob(c.component, c.envelope, payloads))
  }

  function Jobs(components: seq<L1Component>, observed: Tree, only: Allowlist, blobs: Blobs): Result<seq<FlashJob>, Error>
  {
    if components == [] then Ok([])
    else
      var c := components[|components| - 1];
      match Jobs(components[..|components| - 1], observed, only, blobs)
      case Err(e) => Err(e)
      case Ok(init) =>
        if !Eligible(c, observed, only) then Ok(init)
        else
          match JobFor(c, observed, blobs)
          case Err(e) => Err(e)
          case Ok(j) => Ok(init + [j])
  }

  lemma {:induction false} PayloadsStop(parts: seq<L1Part>, blobs: Blobs, n: nat)
    requires n <= |parts| && PayloadsFor(parts[..n], blobs).Err?
    ensures PayloadsFor(parts, blobs) == Err(PayloadsFor(parts[..n], blobs).error)
    decreases |parts|
  {
    if n < |parts| {
      assert parts[..|parts| - 1][..n] == parts[..n];
      PayloadsStop(parts[..|parts| - 1], blobs, n);
    } else {
      assert parts[..n] == parts;
    }
  }

  method FetchPayloads(parts: seq<L1Part>, blobs: Blobs) returns (r: Result<seq<Payload>, Error>)
    ensures r == PayloadsFor(parts, blobs)
  {
    var payloads: seq<Payload> := [];
    for i := 0 to |parts|
      invariant PayloadsFor(parts[..i], blobs) == Ok(payloads)
    {
      assert parts[..i + 1][..i] == parts[..i];
      if parts[i].outer !in blobs {
        PayloadsStop(parts, blobs, i + 1);
        return Err(PayloadMissing(parts[i].outer));
      }
      payloads := payloads + [Payload("#" + parts[i].part, blobs[parts[i].outer])];
    }
    assert parts[..|parts|] == parts;
    return Ok(payloads);
  }

  lemma {:induction false} JobsStop(components: seq<L1Component>, observed: Tree, only: Allowlist, blobs: Blobs, n: nat)
    requires n <= |components| && Jobs(components[..n], observed, only, blobs).Err?
    ensures Jobs(components, observed, only, blobs) == Err(Jobs(components[..n], observed, only, blobs).error)
    decreases |components|
  {
    if n < |components| {
      assert components[..|components| - 1][..n] == components[..n];
      JobsStop(components[..|components| - 1], observed, only, blobs, n);
    } else {
      assert components[..n] == components;
    }
  }

  method L1Jobs(components: seq<L1Component>, observed: Tree, only: Allowlist, blobs: Blobs)
    returns (r: Result<seq<FlashJob>, Error>)
    ensures r == Jobs(components, observed, only, blobs)
  {
    var jobs: seq<FlashJob> := [];
    for i := 0 to |components|
      invariant Jobs(components[..i], observed, only, blobs) == Ok(jobs)
    {
      var c := components[i];
      assert components[..i + 1][..i] == components[..i];
      if only.Some? && c.component !in only.value {
        continue;
      }
      if c.component !in observed.entities {
        continue;
      }
      var payloads := Ok([]);
      if !ComponentUnchanged(c, observed) {
        payloads := FetchPayloads(c.parts, blobs);
      }
      if payloads.Err? {
        JobsStop(components, observed, only, blobs, i + 1);
        return Err(payloads.error);
      }
      jobs := jobs + [FlashJob(c.component, c.envelope, payloads.value)];
    }
    assert components[..|components|] == components;
    return Ok(jobs);
  }

  // --- campaign steps --------------------------------------------------------

  datatype CampaignStep = CampaignStep(jobs: seq<FlashJob>, forceEcuReset: bool)

  /** Irreversible: the device says the component cannot be rolled back. Unknown counts as reversible. */
  predicate IsSingleshot(observed: Tree, component: string)
  {
    && component in observed.entities
    && observed.entities[component].updateMode.Some?
    && !observed.entities[component].updateMode.value.supportsRollback
  }

  /** The jobs of one rollback mode, in their original order. */
  function OfMode(jobs: seq<FlashJob>, observed: Tree, singleshot: bool): seq<FlashJob>
  {
    if jobs == [] then []
    else
      var j := jobs[|jobs| - 1];
      OfMode(jobs[..|jobs| - 1], observed, singleshot)
      + if IsSingleshot(observed, j.componentId) == singleshot then [j] else []
  }

  function Steps(jobs: seq<FlashJob>, observed: Tree): seq<CampaignStep>
  {
    var alone, banked := OfMode(jobs, observed, true), OfMode(jobs, observed, false);
    seq(|alone|, i requires 0 <= i < |alone| => CampaignStep([alone[i]], false))
    + if banked == [] then [] else [CampaignStep(banked, true)]
  }

  /** Partition the jobs by rollback mode. */
  method SplitModes(jobs: seq<FlashJob>, observed: Tree) returns (alone: seq<FlashJob>, banked: seq<FlashJob>)
    ensures alone == OfMode(jobs, observed, true)
    ensures banked == OfMode(jobs, observed, false)
  {
    alone, banked := [], [];
    for i := 0 to |jobs|
      invariant alone == OfMode(jobs[..i], observed, true)
      invariant banked == OfMode(jobs[..i], observed, false)
    {
      assert jobs[..i + 1][..i] == jobs[..i];
      if IsSingleshot(observed, jobs[i].componentId) {
        alone := alone + [jobs[i]];
      } else {
        banked := banked + [jobs[i]];
      }
    }
    assert jobs[..|jobs|] == jobs;
  }

  method PlanSteps(jobs: seq<FlashJob>, observed: Tree) returns (steps: seq<CampaignStep>, singleshots: nat)
    ensures steps == Steps(jobs, observed)
    ensures singleshots == |Filter((j: FlashJob) => NoWayBack(observed, j), jobs)|
  {
    OfModeIsFilter(jobs, observed);
    var alone, banked := SplitModes(jobs, observed);
    steps := [];
    for i := 0 to |alone|
      invariant |steps| == i
      invariant forall k :: 0 <= k < i ==> steps[k] == CampaignStep([alone[k]], false)
    {
      steps := steps + [CampaignStep([alone[i]], false)];
    }
    if banked != [] {
      steps := steps + [CampaignStep(banked, true)];
    }
    singleshots := |steps| - if steps != [] && steps[|steps| - 1].forceEcuReset then 1 else 0;
  }

  // --- what a step plan guarantees -------------------------------------------

  function AllJobs(steps: seq<CampaignStep>): seq<FlashJob>
  {
    if steps == [] then [] else AllJobs(steps[..|steps| - 1]) + steps[|steps| - 1].jobs
  }

  lemma {:induction false} OfModeMembers(jobs: seq<FlashJob>, observed: Tree, singleshot: bool)
    ensures forall j :: j in OfMode(jobs, observed, singleshot)
                        <==> j in jobs && IsSingleshot(observed, j.componentId) == singleshot
  {
    if jobs != [] {
      OfModeMembers(jobs[..|jobs| - 1], observed, singleshot);
      assert jobs == jobs[..|jobs| - 1] + [jobs[|jobs| - 1]];
    }
  }

  /** Splitting by mode loses no job and repeats none. */
  lemma {:induction false} ModesPartition(jobs: seq<FlashJob>, observed: Tree)
    ensures multiset(OfMode(jobs, observed, true)) + multiset(OfMode(jobs, observed, false)) == multiset(jobs)
  {
    if jobs != [] {
      var init, last := jobs[..|jobs| - 1], jobs[|jobs| - 1];
      assert jobs == init + [last];
      ModesPartition(init, observed);
      OfModeSnoc(init, last, observed, true);
      OfModeSnoc(init, last, observed, false);
      SplitSnoc(OfMode(init, observed, true), OfMode(init, observed, false), init, last);
    }
  }

  lemma {:induction false} OfModeSnoc(jobs: seq<FlashJob>, j: FlashJob, observed: Tree, singleshot: bool)
    ensures OfMode(jobs + [j], observed, singleshot)
         == if IsSingleshot(observed, j.componentId) == singleshot then OfMode(jobs, observed, singleshot) + [j] else OfMode(jobs, observed, singleshot)
  {
    assert (jobs + [j])[..|jobs|] == jobs;
  }

  lemma {:induction false} AllJobsOfSingles(steps: seq<CampaignStep>, alone: seq<FlashJob>)
    requires |steps| == |alone| && forall i :: 0 <= i < |alone| ==> steps[i].jobs == [alone[i]]
    ensures AllJobs(steps) == alone
  {
    if steps != [] {
      AllJobsOfSingles(steps[..|steps| - 1], alone[..|alone| - 1]);
      assert alone == alone[..|alone| - 1] + [alone[|alone| - 1]];
    }
  }

  /**
   The schedule: irreversible jobs first, each in a step of its own, in job order; then every
   other job together, in job order, in one step that is the only one to force an ECU reset.
   Read end to end the steps are the singleshot jobs followed by the banked ones, so every job
   is scheduled exactly once.
   */
  lemma {:induction false} StepsAreSafe(jobs: seq<FlashJob>, observed: Tree)
    ensures var steps := Steps(jobs, observed);
            var alone, banked := Filter((j: FlashJob) => NoWayBack(observed, j), jobs), Filter((j: FlashJob) => !NoWayBack(observed, j), jobs);
            && AllJobs(steps) == alone + banked
            && multiset(AllJobs(steps)) == multiset(jobs)
            && (forall i :: 0 <= i < |steps| ==> steps[i].jobs != [])
            && (forall i, j :: 0 <= i < |steps| && j in steps[i].jobs ==>
                  (NoWayBack(observed, j) <==> !steps[i].forceEcuReset))
            && (forall i :: 0 <= i < |steps| && !steps[i].forceEcuReset ==> |steps[i].jobs| == 1)
            && (forall i :: 0 <= i < |steps| - 1 ==> !steps[i].forceEcuReset)
            && |alone| == |steps| - (if banked == [] then 0 else 1)
  {
    var steps, alone, banked := Steps(jobs, observed), OfMode(jobs, observed, true), OfMode(jobs, observed, false);
    OfModeIsFilter(jobs, observed);
    ModesAreReported(jobs, observed);
    ModesPartition(jobs, observed);
    ShapeIsSafe(jobs, observed, steps, alone, banked);
  }

  lemma {:induction false} ShapeIsSafe(jobs: seq<FlashJob>, observed: Tree, steps: seq<CampaignStep>, alone: seq<FlashJob>, banked: seq<FlashJob>)
    requires |steps| == |alone| + if banked == [] then 0 else 1
    requires forall i :: 0 <= i < |alone| ==> steps[i] == CampaignStep([alone[i]], false)
    requires banked != [] ==> steps[|alone|] == CampaignStep(banked, true)
    requires forall j :: j in alone ==> NoWayBack(observed, j)
    requires forall j :: j in banked ==> !NoWayBack(observed, j)
    requires multiset(alone) + multiset(banked) == multiset(jobs)
    ensures AllJobs(steps) == alone + banked && multiset(AllJobs(steps)) == multiset(jobs)
    ensures forall i :: 0 <= i < |steps| ==> steps[i].jobs != []
    ensures forall i, j :: 0 <= i < |steps| && j in steps[i].jobs ==> (NoWayBack(observed, j) <==> !steps[i].forceEcuReset)
    ensures forall i :: 0 <= i < |steps| && !steps[i].forceEcuReset ==> |steps[i].jobs| == 1
    ensures forall i :: 0 <= i < |steps| - 1 ==> !steps[i].forceEcuReset
  {
    AllJobsOfSteps(steps, alone, banked);
    StepModes(steps, alone, banked, observed);
  }

  lemma {:induction false} ModesAreReported(jobs: seq<FlashJob>, observed: Tree)
    ensures forall j :: j in OfMode(jobs, observed, true) ==> NoWayBack(observed, j)
    ensures forall j :: j in OfMode(jobs, observed, false) ==> !NoWayBack(observed, j)
  {
    OfModeMembers(jobs, observed, true);
    OfModeMembers(jobs, observed, false);
  }

  lemma {:induction false} StepModes(steps: seq<CampaignStep>, alone: seq<FlashJob>, banked: seq<FlashJob>, observed: Tree)
    requires |steps| == |alone| + if banked == [] then 0 else 1
    requires forall i :: 0 <= i < |alone| ==> steps[i] == CampaignStep([alone[i]], false)
    requires banked != [] ==> steps[|alone|] == CampaignStep(banked, true)
    requires forall j :: j in alone ==> NoWayBack(observed, j)
    requires forall j :: j in banked ==> !NoWayBack(observed, j)
    ensures forall i, j :: 0 <= i < |steps| && j in steps[i].jobs ==> (NoWayBack(observed, j) <==> !steps[i].forceEcuReset)
  {
    forall i, j | 0 <= i < |steps| && j in steps[i].jobs
      ensures NoWayBack(observed, j) <==> !steps[i].forceEcuReset
    {
      if i < |alone| {
        assert alone[i] in alone;
      }
    }
  }

  lemma {:induction false} AllJobsOfSteps(steps: seq<CampaignStep>, alone: seq<FlashJob>, banked: seq<FlashJob>)
    requires |steps| == |alone| + if banked == [] then 0 else 1
    requires forall i :: 0 <= i < |alone| ==> steps[i].jobs == [alone[i]]
    requires banked != [] ==> steps[|alone|].jobs == banked
    ensures AllJobs(steps) == alone + banked
  {
    AllJobsOfSingles(steps[..|alone|], alone);
    if banked != [] {
      assert steps[..|steps| - 1] == steps[..|alone|];
    } else {
      assert steps[..|alone|] == steps;
    }
  }

  // --- the schedule on the device's own report -------------------------------

  /** The device classifies the component, and says it cannot be rolled back. */
  predicate NoWayBack(observed: Tree, j: FlashJob)
  {
    && j.componentId in observed.entities
    && match observed.entities[j.componentId].updateMode
       case None => false
       case Some(mode) => mode.supportsRollback == false
  }

  lemma {:induction false} OfModeIsFilter(jobs: seq<FlashJob>, observed: Tree)
    ensures OfMode(jobs, observed, true) == Filter((j: FlashJob) => NoWayBack(observed, j), jobs)
    ensures OfMode(jobs, observed, false) == Filter((j: FlashJob) => !NoWayBack(observed, j), jobs)
  {
    if jobs != [] {
      var last := jobs[|jobs| - 1];
      OfModeIsFilter(jobs[..|jobs| - 1], observed);
      assert IsSingleshot(observed, last.componentId) <==> NoWayBack(observed, last);
    }
  }

  /**
   The whole schedule on the report: each job whose component the device says cannot be rolled back
   is a step of its own without a forced reset, in job order; absent, unclassified and reversible
   components follow together, in job order, in one step that forces it.
   */
  lemma {:induction false} ScheduleExact(jobs: seq<FlashJob>, observed: Tree)
    ensures var steps := Steps(jobs, observed);
            var alone, banked := Filter((j: FlashJob) => NoWayBack(observed, j), jobs), Filter((j: FlashJob) => !NoWayBack(observed, j), jobs);
            && |steps| == |alone| + (if banked == [] then 0 else 1)
            && (forall i :: 0 <= i < |alone| ==> steps[i] == CampaignStep([alone[i]], false))
            && (banked != [] ==> steps[|alone|] == CampaignStep(banked, true))
    ensures forall i, j :: 0 <= i < |Steps(jobs, observed)| && j in Steps(jobs, observed)[i].jobs ==>
              (Steps(jobs, observed)[i].forceEcuReset == false
               <==> && j.componentId in observed.entities && observed.entities[j.componentId].updateMode.Some?
                    && observed.entities[j.componentId].updateMode.value.supportsRollback == false)
  {
    OfModeIsFilter(jobs, observed);
    var alone, banked := OfMode(jobs, observed, true), OfMode(jobs, observed, false);
    ModesAreReported(jobs, observed);
    var steps := Steps(jobs, observed);
    StepModes(steps, alone, banked, observed);
    forall i, j | 0 <= i < |steps| && j in steps[i].jobs
      ensures steps[i].forceEcuReset == false
              <==> && j.componentId in observed.entities && observed.entities[j.componentId].updateMode.Some?
                   && observed.entities[j.componentId].updateMode.value.supportsRollback == false
    {
      assert NoWayBack(observed, j) <==> !steps[i].forceEcuReset;
    }
  }
}
