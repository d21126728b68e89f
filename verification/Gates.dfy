/**
 The layers that decide whether anything is left to do must agree. The read-only preview and the
 CLI gate look at part ids, Tower 2 and the orchestrator look at digests; these results say how
 their answers relate, for every pair of trees.
 */
module Gates {
  import opened Collections
  import opened Ordering
  import opened ContentHashes
  import opened Wire
  import opened WireTheorems
  import opened Suit
  import opened Tower
  import opened Orchestrator
  import opened Pipeline
  import opened Previews

  // --- the gate --------------------------------------------------------------

  predicate Selected(only: Option<string>, id: string)
  {
    only.Some? ==> only.value == id
  }

  predicate CampaignHasWork(plan: ApplyPlan, only: Option<string>)
  {
    || (exists c :: c in plan.components && c.ship != [] && Selected(only, c.entity))
    || (exists id :: id in plan.assessment.components && Selected(only, id))
  }

  /** The campaign stops early because everything it would touch is not advertised yet. */
  predicate Bails(plan: ApplyPlan, only: Option<string>)
  {
    plan.assessment.outcome == Deferred && (only.None? || only.value in plan.assessment.components)
  }

  /** The single `--only` id as the orchestrator's allowlist. */
  function AsAllowlist(only: Option<string>): Allowlist
  {
    if only.Some? then Some([only.value]) else None
  }

  /** Every desired part of the component is in its bank under the same id. */
  predicate HeldById(observed: Tree, want: Entity, path: string)
  {
    forall p :: p in want.parts ==> InBank(Bank(observed.PartsAt(path)), p)
  }

  lemma {:induction false} ShipsOfSnoc(plan: seq<PlannedPart>, p: PlannedPart, index: Index)
    ensures ShipsOf(plan + [p], index) == ShipsOf(plan, index) + if p.plan == Ship then [ShipPartFor(p, index)] else []
  {
    assert (plan + [p])[..|plan|] == plan;
  }

  lemma {:induction false} ShipsOfNone(path: string, bank: map<string, ContentHash>, parts: seq<Part>, index: Index)
    ensures ShipsOf(PlanParts(path, bank, parts), index) == [] <==> forall i :: 0 <= i < |parts| ==> InBank(bank, parts[i])
  {
    if parts != [] {
      var init, last := parts[..|parts| - 1], parts[|parts| - 1];
      ShipsOfNone(path, bank, init, index);
      ShipsOfSnoc(PlanParts(path, bank, init), PlanPart(path, bank, last), index);
      assert PlanParts(path, bank, parts) == PlanParts(path, bank, init) + [PlanPart(path, bank, last)];
      assert forall i :: 0 <= i < |init| ==> init[i] == parts[i];
    }
  }

  lemma {:induction false} ApplyOverMembers(plan: seq<PlannedPart>, observed: Tree, desired: Tree, index: Index, paths: seq<string>, c: ComponentApply)
    ensures c in ApplyOver(plan, observed, desired, index, None, paths) <==> c.entity in paths && c in ApplyAt(plan, observed, desired, index, c.entity)
  {
    if paths != [] {
      var init, last := paths[..|paths| - 1], paths[|paths| - 1];
      ApplyOverMembers(plan, observed, desired, index, init, c);
      assert c.entity in paths <==> c.entity in init || c.entity == last;
    }
  }

  /** The preview lists a component with something to ship exactly when a part of it is not held by id. */
  lemma {:induction false} PreviewShips(observed: Tree, desired: Tree, index: Index, path: string)
    ensures (exists c :: c in ApplyOver(FlashPlan(observed, desired), observed, desired, index, None, desired.Paths())
                         && c.ship != [] && c.entity == path)
            <==> path in desired.entities && !HeldById(observed, desired.entities[path], path)
  {
    SortedKeysAscending(desired.entities.Keys);
    PreviewShipsOver(observed, desired, index, desired.Paths(), path);
  }

  lemma {:induction false} PreviewShipsOver(observed: Tree, desired: Tree, index: Index, paths: seq<string>, path: string)
    requires Ascending(paths) && forall p :: p in paths <==> p in desired.entities
    ensures (exists c :: c in ApplyOver(PlanOver(observed, desired, paths), observed, desired, index, None, paths)
                         && c.ship != [] && c.entity == path)
            <==> path in desired.entities && !HeldById(observed, desired.entities[path], path)
  {
    PlanForPaths(observed, desired, paths, path);
    if path in desired.entities {
      ShipsOfNone(path, Bank(observed.PartsAt(path)), desired.entities[path].parts, index);
    }
    PreviewListed(PlanOver(observed, desired, paths), observed, desired, index, paths, path);
  }

  lemma {:induction false} ApplyAtOne(plan: seq<PlannedPart>, observed: Tree, desired: Tree, index: Index, path: string, c: ComponentApply)
    requires c in ApplyAt(plan, observed, desired, index, path)
    ensures c.entity == path && c.ship == ShipsOf(PlanFor(plan, path), index)
  {
  }

  lemma {:induction false} PreviewListed(plan: seq<PlannedPart>, observed: Tree, desired: Tree, index: Index, paths: seq<string>, path: string)
    ensures (exists c :: c in ApplyOver(plan, observed, desired, index, None, paths) && c.ship != [] && c.entity == path)
            <==> path in paths && ShipsOf(PlanFor(plan, path), index) != []
  {
    if path in paths && ShipsOf(PlanFor(plan, path), index) != [] {
      var c := ApplyAt(plan, observed, desired, index, path)[0];
      ApplyAtOne(plan, observed, desired, index, path, c);
      ApplyOverMembers(plan, observed, desired, index, paths, c);
      assert c in ApplyOver(plan, observed, desired, index, None, paths) && c.ship != [] && c.entity == path;
    }
    if c :| c in ApplyOver(plan, observed, desired, index, None, paths) && c.ship != [] && c.entity == path {
      ApplyOverMembers(plan, observed, desired, index, paths, c);
      ApplyAtOne(plan, observed, desired, index, path, c);
    }
  }

  /** What the gate on an unfiltered preview asks: some selected component drifted, or lacks a part by id. */
  lemma {:induction false} GateExact(observed: Tree, desired: Tree, index: Index, plan: ApplyPlan, only: Option<string>)
    requires plan.assessment == Assess(observed, desired)
    requires plan.components == ApplyOver(FlashPlan(observed, desired), observed, desired, index, None, desired.Paths())
    ensures CampaignHasWork(plan, only)
            <==> exists p :: && p in desired.entities && Selected(only, p)
                             && (Drifted(observed, desired, p) || !HeldById(observed, desired.entities[p], p))
  {
    if CampaignHasWork(plan, only) {
      if c :| c in plan.components && c.ship != [] && Selected(only, c.entity) {
        PreviewShips(observed, desired, index, c.entity);
      } else {
        var id :| id in plan.assessment.components && Selected(only, id);
        assert id in DriftedPaths(observed, desired);
      }
    }
    if p :| p in desired.entities && Selected(only, p)
            && (Drifted(observed, desired, p) || !HeldById(observed, desired.entities[p], p))
    {
      if Drifted(observed, desired, p) {
        assert p in DriftedPaths(observed, desired);
        assert p in plan.assessment.components;
      } else {
        PreviewShips(observed, desired, index, p);
        var c :| c in plan.components && c.ship != [] && c.entity == p;
        assert Selected(only, c.entity);
      }
    }
  }

  /** A digest the bank lacks shows up as an added or changed part: the id join sees at least what the digest join sees. */
  lemma {:induction false} MissingDigestIsChange(path: string, observed: seq<Part>, desired: seq<Part>)
    requires !(Digests(desired) <= Digests(observed))
    ensures PartChanges(path, observed, desired) != []
  {
    var d :| d in Digests(desired) && d !in Digests(observed);
    var p :| p in desired && p.content == d;
    PartChangesExact(path, observed, desired);
    BankHoldsParts(observed);
  }

  lemma {:induction false} BankHoldsParts(parts: seq<Part>)
    ensures forall id :: id in Bank(parts) ==> Bank(parts)[id] in Digests(parts)
  {
    if parts != [] {
      BankHoldsParts(parts[..|parts| - 1]);
      assert parts == parts[..|parts| - 1] + [parts[|parts| - 1]];
    }
  }

  /** Every component the tower would build for a vehicle is one the assessment lists. */
  lemma {:induction false} BuiltIsAssessed(observed: Tree, desired: Tree)
    ensures Built(desired, Some(observed)) <= DriftedPaths(observed, desired)
  {
    forall p | p in Built(desired, Some(observed)) ensures Drifted(observed, desired, p) {
      var want := desired.entities[p];
      if !want.disabled && p in observed.entities && observed.AdminAt(p) != Some(true) {
        MissingDigestIsChange(p, observed.PartsAt(p), want.parts);
      }
    }
  }

  /**
   The gates never hide work. For the vehicle's own report: every job's component is in the
   assessment; a converged or deferred assessment means no job under any allowlist; and when the
   CLI stops, either for lack of work or because everything is deferred, there is no job either.
   */
  lemma {:induction false} GatesNeverHideWork(observed: Tree, desired: Tree, hub: Hub, plan: ApplyPlan, only: Option<string>, jobs: seq<FlashJob>)
    requires plan.assessment == Assess(observed, desired)
    requires Planned(desired, Some(observed), observed, hub, AsAllowlist(only), jobs)
    ensures forall j :: j in jobs ==> j.componentId in plan.assessment.components
    ensures plan.assessment.outcome != Actionable ==> jobs == []
    ensures !CampaignHasWork(plan, only) ==> jobs == []
    ensures Bails(plan, only) ==> jobs == []
  {
    BuiltIsAssessed(observed, desired);
    var paths := SortedKeys(Targets(desired, Some(observed), observed, AsAllowlist(only)));
    forall i | 0 <= i < |jobs|
      ensures jobs[i].componentId in plan.assessment.components
      ensures jobs[i].componentId in observed.entities && Selected(only, jobs[i].componentId)
    {
      assert IsDirectJob(jobs[i], desired, observed, hub, paths[i]);
      assert paths[i] in paths;
    }
    if jobs != [] {
      assert jobs[0].componentId in DriftedPaths(observed, desired);
    }
  }

  // --- when there is work the gate lets through ------------------------------

  /** Left to do by digest: what the tower and orchestrator act on for an advertised component. */
  predicate Outstanding(observed: Tree, want: Entity, path: string)
  {
    if want.disabled then observed.AdminAt(path) == Some(false)
    else want.parts != [] && (observed.AdminAt(path) == Some(true) || !EntityAgreed(observed, path, want))
  }

  /** A plan for the vehicle's own report is non-empty exactly when an allowed, advertised component is outstanding. */
  lemma {:induction false} JobsExact(observed: Tree, desired: Tree, hub: Hub, only: Allowlist, jobs: seq<FlashJob>)
    requires Planned(desired, Some(observed), observed, hub, only, jobs)
    ensures forall p :: (exists j :: j in jobs && j.componentId == p)
                        <==> && p in desired.entities && p in observed.entities && Allowed(only, p)
                             && Outstanding(observed, desired.entities[p], p)
  {
    var targets := Targets(desired, Some(observed), observed, only);
    var paths := SortedKeys(targets);
    forall p ensures (exists j :: j in jobs && j.componentId == p) <==> p in targets {
      if p in targets {
        assert p in paths;
        var i :| 0 <= i < |paths| && paths[i] == p;
        assert IsDirectJob(jobs[i], desired, observed, hub, paths[i]);
        assert jobs[i] in jobs;
      }
      if j :| j in jobs && j.componentId == p {
        var i :| 0 <= i < |jobs| && jobs[i] == j;
        assert IsDirectJob(jobs[i], desired, observed, hub, paths[i]);
        assert paths[i] in paths;
      }
    }
    TargetsAreOutstanding(observed, desired, only);
  }

  lemma {:induction false} TargetsAreOutstanding(observed: Tree, desired: Tree, only: Allowlist)
    ensures forall p :: p in Targets(desired, Some(observed), observed, only)
                        <==> && p in desired.entities && p in observed.entities && Allowed(only, p)
                             && Outstanding(observed, desired.entities[p], p)
  {
    forall p | p in desired.entities
      ensures Outstanding(observed, desired.entities[p], p) <==> Classify(Some(observed), p, desired.entities[p]) in {Include, Disable}
    {
      assert ReportedAdmin(Some(observed), p) == observed.AdminAt(p);
    }
  }

  // --- when the gate lets through with nothing to do -------------------------

  /**
   Drift that no job answers, of an advertised component: it is enabled and either has no parts yet
   is disabled on the device or still holds files, or has every desired image, just not under the
   desired ids or not alone.
   */
  predicate Stuck(observed: Tree, want: Entity, path: string)
  {
    var have := observed.PartsAt(path);
    && path in observed.entities && !want.disabled
    && if want.parts == [] then observed.AdminAt(path) == Some(true) || have != []
       else && observed.AdminAt(path) != Some(true)
            && Digests(want.parts) <= Digests(have)
            && (!HeldById(observed, want, path) || !(Ids(have) <= Ids(want.parts)))
  }

  /** The id joins and the digest joins part ways exactly on stuck components. */
  lemma {:induction false} StuckExact(observed: Tree, desired: Tree, path: string)
    requires path in desired.entities && path in observed.entities
    ensures Drifted(observed, desired, path) && !Outstanding(observed, desired.entities[path], path)
            <==> Stuck(observed, desired.entities[path], path)
  {
    var have, want := observed.PartsAt(path), desired.entities[path];
    PartChangesExact(path, have, want.parts);
    assert have != [] ==> have[0].id in Ids(have);
    assert Ids([]) == {};
  }

  /** One reason for the gate to open. */
  predicate Opens(observed: Tree, desired: Tree, path: string)
    requires path in desired.entities
  {
    Drifted(observed, desired, path) || !HeldById(observed, desired.entities[path], path)
  }

  /**
   The gate opens for the component and no job comes: it is not advertised (and either enabled or
   listed with parts), or stuck, or already disabled as desired while lacking parts it will not be sent.
   */
  predicate Idle(observed: Tree, want: Entity, path: string)
  {
    if path !in observed.entities then !want.disabled || want.parts != []
    else if want.disabled then observed.AdminAt(path) != Some(false) && !HeldById(observed, want, path)
    else Stuck(observed, want, path)
  }

  lemma {:induction false} IdleExact(observed: Tree, desired: Tree, path: string)
    requires path in desired.entities
    ensures Opens(observed, desired, path) && !(path in observed.entities && Outstanding(observed, desired.entities[path], path))
            <==> Idle(observed, desired.entities[path], path)
  {
    var want := desired.entities[path];
    if path in observed.entities {
      StuckExact(observed, desired, path);
      PartChangesExact(path, observed.PartsAt(path), want.parts);
      if !want.disabled && !Drifted(observed, desired, path) {
        assert HeldById(observed, want, path);
      }
    } else {
      assert Bank(observed.PartsAt(path)) == map[];
      assert want.parts != [] ==> want.parts[0] in want.parts && !InBank(Bank(observed.PartsAt(path)), want.parts[0]);
    }
  }

  /** What is outstanding on the device opens the gate. */
  lemma {:induction false} OutstandingOpens(observed: Tree, desired: Tree, path: string)
    requires path in desired.entities && path in observed.entities && Outstanding(observed, desired.entities[path], path)
    ensures Opens(observed, desired, path)
  {
    var want := desired.entities[path];
    if !want.disabled && observed.AdminAt(path) != Some(true) {
      MissingDigestIsChange(path, observed.PartsAt(path), want.parts);
    }
  }

  /** Selected components that open the gate are there, and every one of them is idle. */
  ghost predicate OnlyIdle(observed: Tree, desired: Tree, only: Option<string>)
  {
    && (exists p :: p in desired.entities && Selected(only, p) && Opens(observed, desired, p))
    && (forall p :: p in desired.entities && Selected(only, p) && Opens(observed, desired, p) ==> Idle(observed, desired.entities[p], p))
  }

  /** A component that opens the gate and gets a job under this selection, if there is one. */
  ghost predicate OpensWithJob(observed: Tree, desired: Tree, only: Option<string>, p: string)
  {
    && p in desired.entities && Selected(only, p) && Opens(observed, desired, p)
    && p in observed.entities && Outstanding(observed, desired.entities[p], p)
  }

  /** For all trees: the gate opens on a campaign without a job exactly when all it sees is idle. */
  lemma {:induction false} GateOpensInVain(observed: Tree, desired: Tree, hub: Hub, index: Index, plan: ApplyPlan, only: Option<string>, jobs: seq<FlashJob>)
    requires plan.assessment == Assess(observed, desired)
    requires plan.components == ApplyOver(FlashPlan(observed, desired), observed, desired, index, None, desired.Paths())
    requires Planned(desired, Some(observed), observed, hub, AsAllowlist(only), jobs)
    ensures CampaignHasWork(plan, only) && jobs == [] <==> OnlyIdle(observed, desired, only)
  {
    GateExact(observed, desired, index, plan, only);
    NoJobsExact(observed, desired, hub, only, jobs);
    IdleUnlessJob(observed, desired, only);
  }

  /** Everything that drifted is not advertised, something has, and the selected component is among it. */
  ghost predicate AllDeferred(observed: Tree, desired: Tree, only: Option<string>)
  {
    && (exists p :: p in desired.entities && Drifted(observed, desired, p))
    && (forall p :: p in desired.entities && Drifted(observed, desired, p) ==> p !in observed.entities)
    && (only.Some? ==> only.value in desired.entities && Drifted(observed, desired, only.value))
  }

  lemma {:induction false} BailsExact(observed: Tree, desired: Tree, plan: ApplyPlan, only: Option<string>)
    requires plan.assessment == Assess(observed, desired)
    ensures Bails(plan, only) <==> AllDeferred(observed, desired, only)
  {
    var drifted := DriftedPaths(observed, desired);
    assert forall id :: id in plan.assessment.components <==> id in drifted;
    DeferredExact(observed, drifted, DeviceOnly(observed, desired));
    assert forall p :: p in drifted <==> p in desired.entities && Drifted(observed, desired, p);
  }

  lemma {:induction false} DeferredExact(observed: Tree, drifted: set<string>, gone: seq<string>)
    ensures Outcome(observed, drifted, gone) == Deferred
            <==> (exists p :: p in drifted) && forall p :: p in drifted ==> p !in observed.entities
  {
    assert drifted != {} <==> exists p :: p in drifted;
    assert drifted !! observed.entities.Keys <==> forall p :: p in drifted ==> p !in observed.entities;
  }

  /** End to end: the CLI neither bails nor stops, and no job follows, exactly when all it sees is idle and not all of it deferred. */
  lemma {:induction false} ProceedsInVain(observed: Tree, desired: Tree, hub: Hub, index: Index, plan: ApplyPlan, only: Option<string>, jobs: seq<FlashJob>)
    requires plan.assessment == Assess(observed, desired)
    requires plan.components == ApplyOver(FlashPlan(observed, desired), observed, desired, index, None, desired.Paths())
    requires Planned(desired, Some(observed), observed, hub, AsAllowlist(only), jobs)
    ensures !Bails(plan, only) && CampaignHasWork(plan, only) && jobs == []
            <==> OnlyIdle(observed, desired, only) && !AllDeferred(observed, desired, only)
  {
    GateOpensInVain(observed, desired, hub, index, plan, only, jobs);
    BailsExact(observed, desired, plan, only);
  }

  lemma {:induction false} IdleUnlessJob(observed: Tree, desired: Tree, only: Option<string>)
    ensures OnlyIdle(observed, desired, only)
            <==> && (exists p :: p in desired.entities && Selected(only, p) && Opens(observed, desired, p))
                 && forall p :: !OpensWithJob(observed, desired, only, p)
  {
    forall p | p in desired.entities && Selected(only, p) && Opens(observed, desired, p)
      ensures Idle(observed, desired.entities[p], p) <==> !OpensWithJob(observed, desired, only, p)
    {
      IdleExact(observed, desired, p);
    }
    if p :| OpensWithJob(observed, desired, only, p) {
      IdleExact(observed, desired, p);
      assert !Idle(observed, desired.entities[p], p);
    }
  }

  lemma {:induction false} NoJobsExact(observed: Tree, desired: Tree, hub: Hub, only: Option<string>, jobs: seq<FlashJob>)
    requires Planned(desired, Some(observed), observed, hub, AsAllowlist(only), jobs)
    ensures jobs == [] <==> forall p :: !OpensWithJob(observed, desired, only, p)
  {
    JobsExact(observed, desired, hub, AsAllowlist(only), jobs);
    NoJobsForSelected(observed, desired, only, jobs);
  }

  lemma {:induction false} NoJobsForSelected(observed: Tree, desired: Tree, only: Option<string>, jobs: seq<FlashJob>)
    requires forall p :: (exists j :: j in jobs && j.componentId == p)
                         <==> && p in desired.entities && p in observed.entities && Allowed(AsAllowlist(only), p)
                              && Outstanding(observed, desired.entities[p], p)
    ensures jobs == [] <==> forall p :: !OpensWithJob(observed, desired, only, p)
  {
    if jobs != [] {
      var p := jobs[0].componentId;
      assert jobs[0] in jobs;
      OutstandingOpens(observed, desired, p);
      assert OpensWithJob(observed, desired, only, p);
    } else {
      forall p ensures !OpensWithJob(observed, desired, only, p) {
        assert Selected(only, p) ==> Allowed(AsAllowlist(only), p);
      }
    }
  }

  /** One component holding one file. */
  function OneFile(path: string, id: string, content: ContentHash): Tree
  {
    Tree(map[path := Entity("", None, None, [Part("file", id, content)], false, None)])
  }

  /**
   The everyday case: the device names files by bank file name, so a part held under another id
   reads as drift to the id join and as agreed to the digest join.
   */
  lemma {:induction false} RenamedPartPassesGate(path: string, file: string, id: string, content: ContentHash, hub: Hub, plan: ApplyPlan, jobs: seq<FlashJob>)
    requires file != id
    requires plan.assessment == Assess(OneFile(path, file, content), OneFile(path, id, content))
    requires Planned(OneFile(path, id, content), Some(OneFile(path, file, content)), OneFile(path, file, content), hub, None, jobs)
    ensures plan.assessment.outcome == Actionable && CampaignHasWork(plan, None) && jobs == []
  {
    var observed, desired := OneFile(path, file, content), OneFile(path, id, content);
    RenamedPartDrifts(path, file, id, content);
    assert path in DriftedPaths(observed, desired);
    assert path in plan.assessment.components && Selected(None, path);
    RenamedPartAgrees(path, file, id, content);
    assert jobs != [] ==> jobs[0] in jobs;
    JobsExact(observed, desired, hub, None, jobs);
  }

  lemma {:induction false} RenamedPartDrifts(path: string, file: string, id: string, content: ContentHash)
    requires file != id
    ensures Drifted(OneFile(path, file, content), OneFile(path, id, content), path)
  {
    var have, want := [Part("file", file, content)], [Part("file", id, content)];
    PartChangesExact(path, have, want);
    BankKeys(have);
    assert want[0] in want && id !in Ids(have);
  }

  lemma {:induction false} RenamedPartAgrees(path: string, file: string, id: string, content: ContentHash)
    ensures forall p :: p in OneFile(path, id, content).entities ==>
              !Outstanding(OneFile(path, file, content), OneFile(path, id, content).entities[p], p)
  {
    assert Digests([Part("file", id, content)]) == {content} == Digests([Part("file", file, content)]);
  }

  // --- the tower's skip is only an optimisation ------------------------------

  function WithPayload(jobs: seq<FlashJob>): seq<FlashJob>
  {
    if jobs == [] then []
    else
      var j := jobs[|jobs| - 1];
      WithPayload(jobs[..|jobs| - 1]) + if j.payloads != [] then [j] else []
  }

  ghost predicate AscendingJobs(jobs: seq<FlashJob>)
  {
    forall i, j :: 0 <= i < j < |jobs| ==> Less(jobs[i].componentId, jobs[j].componentId)
  }

  lemma {:induction false} WithPayloadMembers(jobs: seq<FlashJob>, j: FlashJob)
    ensures j in WithPayload(jobs) <==> j in jobs && j.payloads != []
  {
    if jobs != [] {
      WithPayloadMembers(jobs[..|jobs| - 1], j);
      SnocMember(jobs, j);
    }
  }

  lemma {:induction false} WithPayloadAscends(jobs: seq<FlashJob>)
    requires AscendingJobs(jobs)
    ensures AscendingJobs(WithPayload(jobs))
  {
    if jobs != [] {
      var init, last := jobs[..|jobs| - 1], jobs[|jobs| - 1];
      WithPayloadAscends(init);
      var r := WithPayload(init);
      forall i | 0 <= i < |r| ensures Less(r[i].componentId, last.componentId) {
        WithPayloadMembers(init, r[i]);
        var k :| 0 <= k < |init| && init[k] == r[i];
        assert jobs[k] == r[i];
      }
    }
  }

  lemma {:induction false} AscendingJobsUnique(a: seq<FlashJob>, b: seq<FlashJob>)
    requires AscendingJobs(a) && AscendingJobs(b)
    requires forall j :: j in a <==> j in b
    ensures a == b
  {
    assert a != [] ==> a[0] in a;
    assert b != [] ==> b[0] in b;
    if a != [] && b != [] {
      if a[0] != b[0] {
        var i :| 0 < i < |b| && b[i] == a[0];
        var j :| 0 < j < |a| && a[j] == b[0];
        LessAsymmetric(a[0].componentId, b[0].componentId);
        assert false;
      }
      LessIrreflexive(a[0].componentId);
      assert forall j :: j in a <==> j == a[0] || j in a[1..];
      assert forall j :: j in b <==> j == b[0] || j in b[1..];
      assert a[0] !in a[1..] && b[0] !in b[1..];
      AscendingJobsUnique(a[1..], b[1..]);
      assert a == [a[0]] + a[1..] && b == [b[0]] + b[1..];
    }
  }

  lemma {:induction false} PlannedAscends(desired: Tree, reported: Option<Tree>, observed: Tree, hub: Hub, only: Allowlist, jobs: seq<FlashJob>)
    requires Planned(desired, reported, observed, hub, only, jobs)
    ensures AscendingJobs(jobs)
    ensures forall j :: j in jobs <==>
      j.componentId in Targets(desired, reported, observed, only) && IsDirectJob(j, desired, observed, hub, j.componentId)
  {
    var targets := Targets(desired, reported, observed, only);
    var paths := SortedKeys(targets);
    SortedKeysAscending(targets);
    assert forall i :: 0 <= i < |paths| ==> IsDirectJob(jobs[i], desired, observed, hub, paths[i]);
    forall j ensures j in jobs <==> j.componentId in targets && IsDirectJob(j, desired, observed, hub, j.componentId) {
      if j in jobs {
        var i :| 0 <= i < |jobs| && jobs[i] == j;
        assert paths[i] in paths;
      }
      if j.componentId in targets && IsDirectJob(j, desired, observed, hub, j.componentId) {
        assert j.componentId in paths;
        var i :| 0 <= i < |paths| && paths[i] == j.componentId;
        assert jobs[i] == j;
      }
    }
  }

  /**
   Planning with the vehicle's report or with none pushes the very same payload-carrying jobs in
   the same order.
   */
  lemma {:induction false} TowerSkipIsPure(desired: Tree, observed: Tree, hub: Hub, only: Allowlist, full: seq<FlashJob>, skipping: seq<FlashJob>)
    requires Planned(desired, None, observed, hub, only, full)
    requires Planned(desired, Some(observed), observed, hub, only, skipping)
    ensures WithPayload(full) == WithPayload(skipping)
  {
    PlannedAscends(desired, None, observed, hub, only, full);
    PlannedAscends(desired, Some(observed), observed, hub, only, skipping);
    PayloadTargetsSame(desired, observed, only);
    WithPayloadAscends(full);
    WithPayloadAscends(skipping);
    forall j ensures j in WithPayload(full) <==> j in full && j.payloads != [] {
      WithPayloadMembers(full, j);
    }
    forall j ensures j in WithPayload(skipping) <==> j in skipping && j.payloads != [] {
      WithPayloadMembers(skipping, j);
    }
    forall j ensures j in WithPayload(full) <==> j in WithPayload(skipping) {
      if IsDirectJob(j, desired, observed, hub, j.componentId) && j.payloads != [] {
        assert !ManifestOnly(observed, j.componentId, desired.entities[j.componentId]);
      }
    }
    AscendingJobsUnique(WithPayload(full), WithPayload(skipping));
  }

  /** With or without the report, the same components are neither disabled nor already carried. */
  lemma {:induction false} PayloadTargetsSame(desired: Tree, observed: Tree, only: Allowlist)
    ensures forall p :: p in desired.entities && !ManifestOnly(observed, p, desired.entities[p]) ==>
      (p in Targets(desired, None, observed, only) <==> p in Targets(desired, Some(observed), observed, only))
    ensures Targets(desired, None, observed, only) - Targets(desired, Some(observed), observed, only)
         <= set p | p in desired.entities && EntityAgreed(observed, p, desired.entities[p])
    ensures Targets(desired, Some(observed), observed, only) - Targets(desired, None, observed, only)
         <= set p | p in desired.entities && desired.entities[p].disabled
  {
  }

  /** A job only the full build has is for a component the vehicle carries; one only the reported build has is a disable. */
  lemma {:induction false} TowerSkipDifference(desired: Tree, observed: Tree, hub: Hub, only: Allowlist, full: seq<FlashJob>, skipping: seq<FlashJob>)
    requires Planned(desired, None, observed, hub, only, full)
    requires Planned(desired, Some(observed), observed, hub, only, skipping)
    ensures forall j :: j in full && j !in skipping ==>
      && j.payloads == [] && j.componentId in desired.entities
      && EntityAgreed(observed, j.componentId, desired.entities[j.componentId])
    ensures forall j :: j in skipping && j !in full ==>
      j.payloads == [] && j.componentId in desired.entities && desired.entities[j.componentId].disabled
  {
    var all, fewer := Targets(desired, None, observed, only), Targets(desired, Some(observed), observed, only);
    PlannedAscends(desired, None, observed, hub, only, full);
    PlannedAscends(desired, Some(observed), observed, hub, only, skipping);
    PayloadTargetsSame(desired, observed, only);
    forall j | j in full && j !in skipping
      ensures j.payloads == [] && j.componentId in desired.entities && EntityAgreed(observed, j.componentId, desired.entities[j.componentId])
    {
      assert j.componentId in all - fewer;
      NoPayload(desired, observed, hub, j);
    }
    forall j | j in skipping && j !in full
      ensures j.payloads == [] && j.componentId in desired.entities && desired.entities[j.componentId].disabled
    {
      assert j.componentId in fewer - all;
      NoPayload(desired, observed, hub, j);
    }
  }

  lemma {:induction false} NoPayload(desired: Tree, observed: Tree, hub: Hub, j: FlashJob)
    requires IsDirectJob(j, desired, observed, hub, j.componentId)
    ensures ManifestOnly(observed, j.componentId, desired.entities[j.componentId]) ==> j.payloads == []
  {
  }

  /** And reporting never makes a plan fail: whenever the full build plans, so does the reported one. */
  lemma {:induction false} TowerSkipNeverFails(desired: Tree, observed: Tree, hub: Hub, only: Allowlist)
    requires PlanSucceeds(desired, None, observed, hub, only)
    ensures PlanSucceeds(desired, Some(observed), observed, hub, only)
  {
    var full, skipping := Targets(desired, None, observed, only), Targets(desired, Some(observed), observed, only);
    SkippingIsPushable(desired, observed, hub, only, SortedKeys(full), SortedKeys(skipping));
    SomethingStays(desired, observed);
  }

  lemma {:induction false} SkippingIsPushable(desired: Tree, observed: Tree, hub: Hub, only: Allowlist, full: seq<string>, skipping: seq<string>)
    requires forall p :: p in full <==> p in Targets(desired, None, observed, only)
    requires forall p :: p in skipping <==> p in Targets(desired, Some(observed), observed, only)
    requires Pushable(desired, observed, hub, full)
    ensures Pushable(desired, observed, hub, skipping)
  {
    forall p | p in skipping
      ensures p in desired.entities && CanBuild(desired.entities[p], hub.index) && CanPush(observed, p, desired.entities[p], hub.index, hub.blobs)
    {
      if !desired.entities[p].disabled {
        assert p in full;
      }
    }
  }

  lemma {:induction false} SomethingStays(desired: Tree, observed: Tree)
    requires Built(desired, None) != {} || SomeSkipped(desired, None)
    ensures Built(desired, Some(observed)) != {} || SomeSkipped(desired, Some(observed))
  {
    if Built(desired, None) != {} {
      var p :| p in Built(desired, None);
      assert p in Built(desired, Some(observed)) || Classify(Some(observed), p, desired.entities[p]) == Skip;
    } else {
      var p :| p in desired.entities && Classify(None, p, desired.entities[p]) == Skip;
      assert p in Built(desired, Some(observed)) || Classify(Some(observed), p, desired.entities[p]) == Skip;
    }
  }

  // --- push safety -----------------------------------------------------------

  /**
   Every planned job targets an allowlisted, advertised component of the release. One that ships
   bytes ships, for each manifest part in order, that part's stored blob under its own uri. A
   manifest-only firmware job has all its digests in the target's own bank, and for the vehicle's own
   report it arises exactly when the device reports the component disabled while holding them.
   */
  lemma {:induction false} PushIsSafe(desired: Tree, observed: Tree, reported: Option<Tree>, hub: Hub, only: Allowlist, jobs: seq<FlashJob>, job: FlashJob)
    requires Planned(desired, reported, observed, hub, only, jobs) && job in jobs
    ensures job.componentId in desired.entities && job.componentId in observed.entities && Allowed(only, job.componentId)
    ensures var want := desired.entities[job.componentId];
            && (want.disabled ==> job.payloads == [])
            && (!want.disabled && job.payloads == [] ==> Digests(want.parts) <= Digests(observed.entities[job.componentId].parts))
            && (job.payloads != [] ==>
                  && |job.payloads| == |want.parts|
                  && forall i :: 0 <= i < |want.parts| ==>
                       && want.parts[i].content in hub.index && hub.index[want.parts[i].content].outer in hub.blobs
                       && job.payloads[i] == Payload("#" + want.parts[i].id, hub.blobs[hub.index[want.parts[i].content].outer]))
            && (reported == Some(observed) && !want.disabled ==>
                  (job.payloads == [] <==>
                     && observed.AdminAt(job.componentId) == Some(true)
                     && Digests(want.parts) <= Digests(observed.entities[job.componentId].parts)))
  {
    PlannedAscends(desired, reported, observed, hub, only, jobs);
  }
}
