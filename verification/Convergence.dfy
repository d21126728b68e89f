/**
 Repeated campaign passes against a live device. The device is an environment with a stated
 contract: a committed step realises its jobs and leaves every other component's content and
 admin state alone, a failed banked trial is rolled back, a failed write-through may leave its own
 component in any state, and the advertised set only grows.
 */
module Convergence {
  import opened Collections
  import opened Ordering
  import opened ContentHashes
  import opened Wire
  import opened Suit
  import opened Tower
  import opened Orchestrator
  import opened Pipeline
  import opened Gates

  // --- the environment contract ----------------------------------------------

  /** The image digests a manifest declares. */
  ghost function Declared(envelope: Encoded<Manifest>): set<seq<Byte>>
  {
    if envelope.Garbage? then {}
    else set c | c in envelope.value.components && c.digest.Some? :: c.digest.value
  }

  predicate IsDisable(envelope: Encoded<Manifest>)
  {
    envelope.Cbor? && envelope.value.disableTarget.Some? && !envelope.value.HasFirmware()
  }

  ghost function BankBytes(parts: seq<Part>): set<seq<Byte>>
  {
    set p | p in parts :: p.content.bytes
  }

  /** After a commit: a disable is no longer reported enabled; a flash holds every declared image and is not disabled. */
  ghost predicate Realised(job: FlashJob, after: Entity)
  {
    if IsDisable(job.envelope) then after.adminDisabled != Some(false)
    else after.adminDisabled != Some(true) && Declared(job.envelope) <= BankBytes(after.parts)
  }

  function Targeted(step: CampaignStep): set<string>
  {
    set j | j in step.jobs :: j.componentId
  }

  /** Nothing outside `touched` loses its content or changes its admin state; nothing stops being advertised. */
  ghost predicate Leaves(before: Tree, after: Tree, touched: set<string>)
  {
    && before.entities.Keys <= after.entities.Keys
    && forall p :: p in before.entities && p !in touched ==>
         && after.entities[p].parts == before.entities[p].parts
         && after.entities[p].adminDisabled == before.entities[p].adminDisabled
  }

  ghost predicate Commits(step: CampaignStep, before: Tree, after: Tree)
  {
    && Leaves(before, after, Targeted(step))
    && forall j :: j in step.jobs ==> j.componentId in after.entities && Realised(j, after.entities[j.componentId])
  }

  /** A trial is rolled back whole; a write-through step has no way back. */
  ghost predicate Aborts(step: CampaignStep, before: Tree, after: Tree)
  {
    Leaves(before, after, if step.forceEcuReset then {} else Targeted(step))
  }

  // --- runs ------------------------------------------------------------------

  /**
   One pass: the state it read, the plan it made, the state after each committed step (any prefix
   of the steps), and the state it ended in. An aborted pass failed at the first uncommitted step.
   */
  datatype Pass = Pass(start: Tree, hub: Hub, only: Allowlist, jobs: seq<FlashJob>, marks: seq<Tree>, aborted: bool, end: Tree) {
    function Plan(): seq<CampaignStep>
    {
      Steps(jobs, start)
    }
  }

  /** The state before the `k`th step. */
  function At(start: Tree, marks: seq<Tree>, k: nat): Tree
    requires k <= |marks|
  {
    if k == 0 then start else marks[k - 1]
  }

  /** The marks follow from committing the first steps one after the other. */
  ghost predicate Chain(steps: seq<CampaignStep>, start: Tree, marks: seq<Tree>)
  {
    && |marks| <= |steps|
    && forall k :: 0 <= k < |marks| ==> CommitsAt(steps, start, marks, k)
  }

  ghost predicate CommitsAt(steps: seq<CampaignStep>, start: Tree, marks: seq<Tree>, k: nat)
    requires k < |marks| <= |steps|
  {
    Commits(steps[k], At(start, marks, k), marks[k])
  }

  ghost predicate Ends(steps: seq<CampaignStep>, start: Tree, marks: seq<Tree>, aborted: bool, end: Tree)
    requires |marks| <= |steps|
  {
    if aborted then |marks| < |steps| && Aborts(steps[|marks|], At(start, marks, |marks|), end)
    else Leaves(At(start, marks, |marks|), end, {})
  }

  ghost predicate ValidPass(desired: Tree, r: Pass)
  {
    && Planned(desired, Some(r.start), r.start, r.hub, r.only, r.jobs)
    && Chain(r.Plan(), r.start, r.marks)
    && Ends(r.Plan(), r.start, r.marks, r.aborted, r.end)
  }

  ghost predicate ValidRun(desired: Tree, run: seq<Pass>)
  {
    && (forall i :: 0 <= i < |run| ==> ValidPass(desired, run[i]))
    && (forall i :: 0 <= i < |run| - 1 ==> Follows(run, i))
  }

  /** Between passes the device only goes on advertising more. */
  ghost predicate Follows(run: seq<Pass>, i: nat)
    requires i + 1 < |run|
  {
    Leaves(run[i].end, run[i + 1].start, {})
  }

  // --- the measure -----------------------------------------------------------

  /** Advertised, in the desired admin state, and holding every desired digest. */
  predicate Agrees(desired: Tree, observed: Tree, path: string)
    requires path in desired.entities
  {
    var want := desired.entities[path];
    && path in observed.entities
    && if want.disabled then observed.AdminAt(path) != Some(false)
       else observed.AdminAt(path) != Some(true) && EntityAgreed(observed, path, want)
  }

  function Pending(desired: Tree, observed: Tree): set<string>
  {
    set p | p in desired.entities && !Agrees(desired, observed, p)
  }

  lemma {:induction false} LeavesShrinksPending(desired: Tree, before: Tree, after: Tree, touched: set<string>)
    requires Leaves(before, after, touched) && touched <= Pending(desired, before)
    ensures Pending(desired, after) <= Pending(desired, before)
  {
  }

  /** What a planned job declares is what the release wants. */
  lemma {:induction false} RealisedAgrees(desired: Tree, start: Tree, hub: Hub, job: FlashJob, after: Tree)
    requires IsDirectJob(job, desired, start, hub, job.componentId)
    requires job.componentId in after.entities && Realised(job, after.entities[job.componentId])
    ensures Agrees(desired, after, job.componentId)
  {
    var want, have := desired.entities[job.componentId], after.entities[job.componentId];
    if !want.disabled {
      var parts := EnvelopeParts(want.parts, hub.index);
      var m := job.envelope.value;
      assert m.components == ComponentsFor(job.componentId, parts, hub.device);
      forall d | d in Digests(want.parts) ensures d in Digests(have.parts) {
        var i :| 0 <= i < |want.parts| && want.parts[i].content == d;
        assert m.components[i] in m.components && m.components[i].digest == Some(d.bytes);
        assert d.bytes in Declared(job.envelope);
        var p :| p in have.parts && p.content.bytes == d.bytes;
        assert p.content == d;
      }
    }
  }

  /** A plan for the vehicle's own report only targets pending components. */
  lemma {:induction false} JobsArePending(desired: Tree, start: Tree, hub: Hub, only: Allowlist, jobs: seq<FlashJob>)
    requires Planned(desired, Some(start), start, hub, only, jobs)
    ensures forall j :: j in jobs ==>
      && j.componentId in Pending(desired, start) && j.componentId in start.entities
      && IsDirectJob(j, desired, start, hub, j.componentId)
  {
    PlannedAscends(desired, Some(start), start, hub, only, jobs);
    TargetsAreOutstanding(start, desired, only);
  }

  /** The components of the first `k` steps of a plan. */
  function Done(steps: seq<CampaignStep>, k: nat): set<string>
    requires k <= |steps|
  {
    if k == 0 then {} else Done(steps, k - 1) + Targeted(steps[k - 1])
  }

  lemma {:induction false} DoneGrows(steps: seq<CampaignStep>, k: nat, n: nat)
    requires k <= n <= |steps|
    ensures Done(steps, k) <= Done(steps, n)
  {
    if k < n {
      DoneGrows(steps, k, n - 1);
    }
  }

  ghost predicate DisjointSteps(steps: seq<CampaignStep>)
  {
    && (forall i, j :: 0 <= i < j < |steps| ==> Targeted(steps[i]) !! Targeted(steps[j]))
    && (forall i :: 0 <= i < |steps| ==> Targeted(steps[i]) != {})
  }

  lemma {:induction false} DoneApart(steps: seq<CampaignStep>, k: nat, n: nat)
    requires DisjointSteps(steps) && k <= n < |steps|
    ensures Done(steps, k) !! Targeted(steps[n])
  {
    if k > 0 {
      DoneApart(steps, k - 1, n);
    }
  }

  /** The jobs of distinct steps are for distinct components. */
  lemma {:induction false} StepsDisjoint(jobs: seq<FlashJob>, observed: Tree)
    requires AscendingJobs(jobs)
    ensures DisjointSteps(Steps(jobs, observed))
    ensures forall i, j :: 0 <= i < |Steps(jobs, observed)| && j in Steps(jobs, observed)[i].jobs ==> j in jobs
  {
    var alone, banked := OfMode(jobs, observed, true), OfMode(jobs, observed, false);
    OfModeMembers(jobs, observed, true);
    OfModeMembers(jobs, observed, false);
    OfModeAscends(jobs, observed, true);
    SplitDisjoint(jobs, observed, alone, banked, Steps(jobs, observed));
  }

  lemma {:induction false} SplitDisjoint(jobs: seq<FlashJob>, observed: Tree, alone: seq<FlashJob>, banked: seq<FlashJob>, steps: seq<CampaignStep>)
    requires AscendingJobs(alone)
    requires forall j :: j in alone ==> j in jobs && IsSingleshot(observed, j.componentId)
    requires forall j :: j in banked ==> j in jobs && !IsSingleshot(observed, j.componentId)
    requires |steps| == |alone| + if banked == [] then 0 else 1
    requires forall i :: 0 <= i < |alone| ==> steps[i].jobs == [alone[i]]
    requires banked != [] ==> steps[|alone|].jobs == banked
    ensures DisjointSteps(steps)
    ensures forall i, j :: 0 <= i < |steps| && j in steps[i].jobs ==> j in jobs
  {
    forall i | 0 <= i < |steps| ensures Targeted(steps[i]) != {} {
      assert steps[i].jobs[0] in steps[i].jobs;
      assert steps[i].jobs[0].componentId in Targeted(steps[i]);
    }
    forall i | 0 <= i < |alone|
      ensures Targeted(steps[i]) == {alone[i].componentId} && alone[i] in jobs && IsSingleshot(observed, alone[i].componentId)
    {
      assert alone[i] in alone;
    }
    forall i, j | 0 <= i < j < |steps| ensures Targeted(steps[i]) !! Targeted(steps[j]) {
      if j < |alone| {
        LessAsymmetric(alone[i].componentId, alone[j].componentId);
      }
    }
  }

  lemma {:induction false} OfModeAscends(jobs: seq<FlashJob>, observed: Tree, singleshot: bool)
    requires AscendingJobs(jobs)
    ensures AscendingJobs(OfMode(jobs, observed, singleshot))
  {
    if jobs != [] {
      var init, last := jobs[..|jobs| - 1], jobs[|jobs| - 1];
      OfModeAscends(init, observed, singleshot);
      OfModeMembers(init, observed, singleshot);
      var r := OfMode(init, observed, singleshot);
      forall i | 0 <= i < |r| ensures Less(r[i].componentId, last.componentId) {
        assert r[i] in init;
      }
    }
  }

  // --- one pass --------------------------------------------------------------

  /** Steps for pairwise different components, all pending and advertised at the start, each job declaring what is desired. */
  ghost predicate GoodSteps(desired: Tree, start: Tree, hub: Hub, steps: seq<CampaignStep>)
  {
    && DisjointSteps(steps)
    && (forall i, j :: 0 <= i < |steps| && j in steps[i].jobs ==> IsDirectJob(j, desired, start, hub, j.componentId))
    && (forall i :: 0 <= i < |steps| ==> Targeted(steps[i]) <= Pending(desired, start) * start.entities.Keys)
  }

  lemma {:induction false} PlanIsGood(desired: Tree, start: Tree, hub: Hub, only: Allowlist, jobs: seq<FlashJob>)
    requires Planned(desired, Some(start), start, hub, only, jobs)
    ensures GoodSteps(desired, start, hub, Steps(jobs, start))
  {
    JobsArePending(desired, start, hub, only, jobs);
    PlannedAscends(desired, Some(start), start, hub, only, jobs);
    StepsDisjoint(jobs, start);
  }

  lemma {:induction false} CommitSettles(desired: Tree, start: Tree, hub: Hub, step: CampaignStep, before: Tree, after: Tree)
    requires Commits(step, before, after)
    requires forall j :: j in step.jobs ==> IsDirectJob(j, desired, start, hub, j.componentId)
    requires Targeted(step) <= Pending(desired, before)
    ensures Pending(desired, after) <= Pending(desired, before) - Targeted(step)
    ensures forall p :: p in Pending(desired, before) - Targeted(step) && p in before.entities ==> p in Pending(desired, after)
  {
    LeavesShrinksPending(desired, before, after, Targeted(step));
    forall p | p in Targeted(step) ensures p !in Pending(desired, after) {
      var j :| j in step.jobs && j.componentId == p;
      RealisedAgrees(desired, start, hub, j, after);
    }
  }

  /** Where a pass stands after committing `done`: those are settled, the rest of what was pending and advertised still is. */
  ghost predicate Standing(desired: Tree, start: Tree, now: Tree, done: set<string>)
  {
    && Pending(desired, now) <= Pending(desired, start) - done
    && start.entities.Keys <= now.entities.Keys
    && Pending(desired, start) * start.entities.Keys - done <= Pending(desired, now)
  }

  lemma {:induction false} StandingStep(desired: Tree, start: Tree, hub: Hub, step: CampaignStep, before: Tree, after: Tree, done: set<string>)
    requires Standing(desired, start, before, done) && Commits(step, before, after)
    requires forall j :: j in step.jobs ==> IsDirectJob(j, desired, start, hub, j.componentId)
    requires Targeted(step) <= Pending(desired, start) * start.entities.Keys && done !! Targeted(step)
    ensures Standing(desired, start, after, done + Targeted(step))
  {
    CommitSettles(desired, start, hub, step, before, after);
  }

  lemma {:induction false} PlanStep(desired: Tree, start: Tree, hub: Hub, steps: seq<CampaignStep>, k: nat, before: Tree, after: Tree)
    requires k < |steps| && GoodSteps(desired, start, hub, steps)
    requires Standing(desired, start, before, Done(steps, k)) && Commits(steps[k], before, after)
    ensures Standing(desired, start, after, Done(steps, k + 1))
  {
    DoneApart(steps, k, k);
    StandingStep(desired, start, hub, steps[k], before, after, Done(steps, k));
  }

  /** After `k` committed steps the pending set has lost everything those steps targeted, and gained nothing. */
  lemma {:induction false} PassPrefix(desired: Tree, start: Tree, hub: Hub, steps: seq<CampaignStep>, marks: seq<Tree>, k: nat)
    requires GoodSteps(desired, start, hub, steps) && Chain(steps, start, marks) && k <= |marks|
    ensures Standing(desired, start, At(start, marks, k), Done(steps, k))
  {
    if k > 0 {
      PassPrefix(desired, start, hub, steps, marks, k - 1);
      assert CommitsAt(steps, start, marks, k - 1);
      PlanStep(desired, start, hub, steps, k - 1, At(start, marks, k - 1), marks[k - 1]);
    }
  }

  lemma {:induction false} AddsSome(done: set<string>, more: set<string>)
    requires done !! more && more != {}
    ensures |done| < |done + more|
  {
    var p :| p in more;
    SubsetSize(done + {p}, done + more);
  }

  lemma {:induction false} DoneWithin(steps: seq<CampaignStep>, all: set<string>, k: nat)
    requires DisjointSteps(steps) && k <= |steps| && forall i :: 0 <= i < |steps| ==> Targeted(steps[i]) <= all
    ensures Done(steps, k) <= all && k <= |Done(steps, k)|
  {
    if k > 0 {
      DoneWithin(steps, all, k - 1);
      DoneApart(steps, k - 1, k - 1);
      AddsSome(Done(steps, k - 1), Targeted(steps[k - 1]));
    }
  }

  lemma {:induction false} DoneIsPending(desired: Tree, start: Tree, hub: Hub, steps: seq<CampaignStep>, k: nat)
    requires GoodSteps(desired, start, hub, steps) && k <= |steps|
    ensures Done(steps, k) <= Pending(desired, start)
    ensures k <= |Done(steps, k)|
  {
    DoneWithin(steps, Pending(desired, start), k);
  }

  lemma {:induction false} EndShrinks(desired: Tree, start: Tree, hub: Hub, steps: seq<CampaignStep>, marks: seq<Tree>, aborted: bool, end: Tree)
    requires GoodSteps(desired, start, hub, steps) && Chain(steps, start, marks) && Ends(steps, start, marks, aborted, end)
    ensures Pending(desired, end) <= Pending(desired, start) - Done(steps, |marks|)
  {
    var last := At(start, marks, |marks|);
    PassPrefix(desired, start, hub, steps, marks, |marks|);
    if aborted {
      var step := steps[|marks|];
      DoneApart(steps, |marks|, |marks|);
      LeavesShrinksPending(desired, last, end, if step.forceEcuReset then {} else Targeted(step));
    } else {
      LeavesShrinksPending(desired, last, end, {});
    }
  }

  /** What a pass committed. */
  function Committed(r: Pass): set<string>
    requires |r.marks| <= |r.Plan()|
  {
    Done(r.Plan(), |r.marks|)
  }

  /** A pass removes what it committed from the pending set, adds nothing, and committed only pending components. */
  lemma {:induction false} PassShrinks(desired: Tree, r: Pass)
    requires ValidPass(desired, r)
    ensures Pending(desired, r.end) <= Pending(desired, r.start) - Committed(r)
    ensures Committed(r) <= Pending(desired, r.start)
    ensures |r.marks| <= |Committed(r)|
  {
    PlanIsGood(desired, r.start, r.hub, r.only, r.jobs);
    EndShrinks(desired, r.start, r.hub, r.Plan(), r.marks, r.aborted, r.end);
    DoneIsPending(desired, r.start, r.hub, r.Plan(), |r.marks|);
  }

  // --- whole runs ------------------------------------------------------------

  /** A pass reduced to its effect on the pending set. */
  datatype Effect = Effect(before: set<string>, committed: set<string>, steps: nat, after: set<string>)

  ghost predicate Shrinking(e: Effect)
  {
    e.after <= e.before - e.committed && e.committed <= e.before && e.steps <= |e.committed|
  }

  ghost predicate Continues(effects: seq<Effect>, i: nat)
    requires i + 1 < |effects|
  {
    effects[i + 1].before <= effects[i].after
  }

  ghost predicate ShrinkingRun(effects: seq<Effect>)
  {
    && (forall i :: 0 <= i < |effects| ==> Shrinking(effects[i]))
    && (forall i :: 0 <= i < |effects| - 1 ==> Continues(effects, i))
  }

  ghost function EffectOf(desired: Tree, r: Pass): Effect
  {
    Effect(Pending(desired, r.start), if |r.marks| <= |r.Plan()| then Committed(r) else {}, |r.marks|, Pending(desired, r.end))
  }

  ghost function Effects(desired: Tree, run: seq<Pass>): seq<Effect>
  {
    seq(|run|, i requires 0 <= i < |run| => EffectOf(desired, run[i]))
  }

  lemma {:induction false} EffectShrinks(desired: Tree, r: Pass)
    requires ValidPass(desired, r)
    ensures Shrinking(EffectOf(desired, r))
  {
    PassShrinks(desired, r);
  }

  lemma {:induction false} RunEffects(desired: Tree, run: seq<Pass>)
    requires ValidRun(desired, run)
    ensures ShrinkingRun(Effects(desired, run))
  {
    forall i | 0 <= i < |run| ensures Shrinking(Effects(desired, run)[i]) {
      EffectShrinks(desired, run[i]);
    }
    forall i | 0 <= i < |run| - 1 ensures Continues(Effects(desired, run), i) {
      assert Follows(run, i);
      LeavesShrinksPending(desired, run[i].end, run[i + 1].start, {});
    }
  }

  lemma {:induction false} EffectsShrink(effects: seq<Effect>, i: nat, j: nat)
    requires ShrinkingRun(effects) && i < j < |effects|
    ensures effects[j].before <= effects[i].before - effects[i].committed
  {
    assert Continues(effects, j - 1);
    if i < j - 1 {
      EffectsShrink(effects, i, j - 1);
    }
  }

  function StepsTaken(effects: seq<Effect>): nat
  {
    if effects == [] then 0 else StepsTaken(effects[..|effects| - 1]) + effects[|effects| - 1].steps
  }

  lemma {:induction false} EffectCounts(e: Effect)
    requires Shrinking(e)
    ensures e.steps + |e.after| <= |e.before|
  {
    SubsetSize(e.after, e.before - e.committed);
    assert e.before == (e.before - e.committed) + e.committed;
  }

  lemma {:induction false} StepsBounded(effects: seq<Effect>)
    requires ShrinkingRun(effects) && effects != []
    ensures StepsTaken(effects) + |effects[|effects| - 1].after| <= |effects[0].before|
  {
    var init, last := effects[..|effects| - 1], effects[|effects| - 1];
    EffectCounts(last);
    if init != [] {
      assert Continues(effects, |init| - 1);
      assert forall i :: 0 <= i < |init| - 1 ==> Continues(effects, i) ==> Continues(init, i);
      StepsBounded(init);
      SubsetSize(last.before, init[|init| - 1].after);
    } else {
      assert StepsTaken(init) == 0;
    }
  }

  /** Over any run nothing that was settled becomes pending again, and nothing new becomes pending. */
  lemma {:induction false} RunShrinks(desired: Tree, run: seq<Pass>, i: nat, j: nat)
    requires ValidRun(desired, run) && i < j < |run|
    ensures var e := Effects(desired, run); e[j].before <= e[i].before - e[i].committed
  {
    RunEffects(desired, run);
    EffectsShrink(Effects(desired, run), i, j);
  }

  /**
   No component is committed twice in a run, whatever allowlists, failures and reboots it goes
   through. A write-through that failed may have changed its component and is tried again.
   */
  lemma {:induction false} CommittedOnce(desired: Tree, run: seq<Pass>, i: nat, j: nat)
    requires ValidRun(desired, run) && i < j < |run|
    ensures Effects(desired, run)[i].committed !! Effects(desired, run)[j].committed
  {
    RunEffects(desired, run);
    EffectsShrink(Effects(desired, run), i, j);
    assert Shrinking(Effects(desired, run)[j]);
  }

  /** A run cannot commit more steps than components were pending when it began. */
  lemma {:induction false} RunTerminates(desired: Tree, run: seq<Pass>)
    requires ValidRun(desired, run) && run != []
    ensures StepsTaken(Effects(desired, run)) + |Pending(desired, run[|run| - 1].end)| <= |Pending(desired, run[0].start)|
  {
    RunEffects(desired, run);
    StepsBounded(Effects(desired, run));
  }

  /**
   A pass over the whole L1 that plans no job found every advertised desired component that has
   parts or a disable already in its desired content and admin state, and conversely.
   */
  lemma {:induction false} NoJobsMeansAgreed(desired: Tree, start: Tree, hub: Hub, jobs: seq<FlashJob>)
    requires Planned(desired, Some(start), start, hub, None, jobs)
    ensures jobs == [] <==> forall p :: p in desired.entities && Actable(desired, start, p) ==> Agrees(desired, start, p)
  {
    JobsExact(start, desired, hub, None, jobs);
    assert jobs != [] ==> jobs[0] in jobs;
    if p :| p in desired.entities && Actable(desired, start, p) && !Agrees(desired, start, p) {
      assert Outstanding(start, desired.entities[p], p);
    }
  }

  /** Advertised, with parts or a disable to apply. */
  predicate Actable(desired: Tree, observed: Tree, path: string)
    requires path in desired.entities
  {
    path in observed.entities && (desired.entities[path].disabled || desired.entities[path].parts != [])
  }

  /** A whole-L1 pass that commits every step and meets no newly advertised component leaves nothing for the next one. */
  lemma {:induction false} FullPassSettles(desired: Tree, r: Pass, hub: Hub, next: seq<FlashJob>)
    requires ValidPass(desired, r) && r.only.None? && |r.marks| == |r.Plan()|
    requires r.end.entities.Keys == r.start.entities.Keys
    requires Planned(desired, Some(r.end), r.end, hub, None, next)
    ensures next == []
  {
    PassShrinks(desired, r);
    JobsExact(r.start, desired, r.hub, None, r.jobs);
    JobsExact(r.end, desired, hub, None, next);
    assert next != [] ==> next[0] in next;
    if next != [] {
      var p := next[0].componentId;
      assert p in Pending(desired, r.end);
      assert Outstanding(r.start, desired.entities[p], p);
      var j :| j in r.jobs && j.componentId == p;
      AllTargetsDone(r.jobs, r.start, j);
    }
  }

  lemma {:induction false} AllTargetsDone(jobs: seq<FlashJob>, observed: Tree, j: FlashJob)
    requires j in jobs
    ensures j.componentId in Done(Steps(jobs, observed), |Steps(jobs, observed)|)
  {
    StepsAreSafe(jobs, observed);
    assert j in multiset(jobs);
    DoneCoversAll(Steps(jobs, observed), j);
  }

  lemma {:induction false} DoneCoversAll(steps: seq<CampaignStep>, j: FlashJob)
    requires j in multiset(AllJobs(steps))
    ensures j.componentId in Done(steps, |steps|)
  {
    assert steps[..|steps|] == steps;
    DoneCovers(steps, |steps|, j);
  }

  lemma {:induction false} DoneCovers(steps: seq<CampaignStep>, n: nat, j: FlashJob)
    requires n <= |steps| && j in AllJobs(steps[..n])
    ensures j.componentId in Done(steps, n)
  {
    if n > 0 {
      assert steps[..n][..n - 1] == steps[..n - 1];
      if j in AllJobs(steps[..n - 1]) {
        DoneCovers(steps, n - 1, j);
      }
    }
  }

  // --- what never converges --------------------------------------------------

  /** Being stuck depends only on a component's content and admin state. */
  lemma {:induction false} StuckStays(desired: Tree, path: string, before: Tree, after: Tree, touched: set<string>)
    requires path in desired.entities && Stuck(before, desired.entities[path], path)
    requires Leaves(before, after, touched) && path !in touched
    ensures Stuck(after, desired.entities[path], path)
  {
    assert after.PartsAt(path) == before.PartsAt(path) && after.AdminAt(path) == before.AdminAt(path);
  }

  /** A stuck component counts as agreed, or has nothing to agree on: no step of a pass is for it. */
  lemma {:induction false} StuckUntargeted(desired: Tree, r: Pass, path: string)
    requires ValidPass(desired, r) && path in desired.entities && Stuck(r.start, desired.entities[path], path)
    ensures forall j :: j in r.jobs ==> j.componentId != path
    ensures forall k :: 0 <= k < |r.Plan()| ==> path !in Targeted(r.Plan()[k])
  {
    StuckExact(r.start, desired, path);
    JobsExact(r.start, desired, r.hub, r.only, r.jobs);
    PlanIsGood(desired, r.start, r.hub, r.only, r.jobs);
    forall k | 0 <= k < |r.Plan()| ensures path !in Targeted(r.Plan()[k]) {
      StepsJobs(r.jobs, r.start, k);
    }
  }

  lemma {:induction false} StepsJobs(jobs: seq<FlashJob>, observed: Tree, k: nat)
    requires k < |Steps(jobs, observed)|
    ensures forall j :: j in Steps(jobs, observed)[k].jobs ==> j in jobs
  {
    OfModeMembers(jobs, observed, true);
    OfModeMembers(jobs, observed, false);
  }

  lemma {:induction false} StuckOver(desired: Tree, r: Pass, path: string, k: nat)
    requires ValidPass(desired, r) && path in desired.entities && Stuck(r.start, desired.entities[path], path)
    requires k < |r.marks| && Stuck(At(r.start, r.marks, k), desired.entities[path], path)
    ensures Stuck(r.marks[k], desired.entities[path], path)
  {
    StuckUntargeted(desired, r, path);
    assert CommitsAt(r.Plan(), r.start, r.marks, k);
    StuckStays(desired, path, At(r.start, r.marks, k), r.marks[k], Targeted(r.Plan()[k]));
  }

  lemma {:induction false} AlongMarks(holds: Tree -> bool, start: Tree, marks: seq<Tree>, k: nat)
    requires k <= |marks| && holds(start)
    requires forall n :: 0 <= n < |marks| && holds(At(start, marks, n)) ==> holds(marks[n])
    ensures holds(At(start, marks, k))
  {
    if k > 0 {
      AlongMarks(holds, start, marks, k - 1);
    }
  }

  lemma {:induction false} StuckAlong(desired: Tree, r: Pass, path: string, k: nat)
    requires ValidPass(desired, r) && path in desired.entities && Stuck(r.start, desired.entities[path], path) && k <= |r.marks|
    ensures Stuck(At(r.start, r.marks, k), desired.entities[path], path)
  {
    var stuck := (t: Tree) => Stuck(t, desired.entities[path], path);
    forall n | 0 <= n < |r.marks| && stuck(At(r.start, r.marks, n)) ensures stuck(r.marks[n]) {
      StuckOver(desired, r, path, n);
    }
    AlongMarks(stuck, r.start, r.marks, k);
  }

  lemma {:induction false} PassKeepsStuck(desired: Tree, r: Pass, path: string)
    requires ValidPass(desired, r) && path in desired.entities && Stuck(r.start, desired.entities[path], path)
    ensures Stuck(r.end, desired.entities[path], path)
  {
    var n := |r.marks|;
    StuckAlong(desired, r, path, n);
    StuckUntargeted(desired, r, path);
    if r.aborted {
      var step := r.Plan()[n];
      StuckStays(desired, path, At(r.start, r.marks, n), r.end, if step.forceEcuReset then {} else Targeted(step));
    } else {
      StuckStays(desired, path, At(r.start, r.marks, n), r.end, {});
    }
  }

  lemma {:induction false} StuckAcross(desired: Tree, run: seq<Pass>, path: string, i: nat)
    requires ValidRun(desired, run) && i + 1 < |run|
    requires path in desired.entities && Stuck(run[i].start, desired.entities[path], path)
    ensures Stuck(run[i + 1].start, desired.entities[path], path)
  {
    PassKeepsStuck(desired, run[i], path);
    assert Follows(run, i);
    StuckStays(desired, path, run[i].end, run[i + 1].start, {});
  }

  ghost predicate Carried(flags: seq<bool>, k: nat)
    requires k + 1 < |flags|
  {
    flags[k] ==> flags[k + 1]
  }

  lemma {:induction false} CarriedOn(flags: seq<bool>, i: nat)
    requires i < |flags| && flags[0] && forall k: nat :: k + 1 < |flags| ==> Carried(flags, k)
    ensures flags[i]
  {
    if i > 0 {
      CarriedOn(flags, i - 1);
      assert Carried(flags, i - 1);
    }
  }

  lemma {:induction false} StuckAtStart(desired: Tree, run: seq<Pass>, path: string, i: nat)
    requires ValidRun(desired, run) && i < |run|
    requires path in desired.entities && Stuck(run[0].start, desired.entities[path], path)
    ensures Stuck(run[i].start, desired.entities[path], path)
  {
    var flags := seq(|run|, k requires 0 <= k < |run| => Stuck(run[k].start, desired.entities[path], path));
    forall k: nat | k + 1 < |flags| ensures Carried(flags, k) {
      if flags[k] {
        StuckAcross(desired, run, path, k);
      }
    }
    CarriedOn(flags, i);
  }

  /**
   Once stuck, always stuck: no pass of a run ever has a job for the component, so the assessment
   stays actionable and the gate stays open however many passes run.
   */
  lemma {:induction false} StuckForever(desired: Tree, run: seq<Pass>, path: string, i: nat)
    requires ValidRun(desired, run) && i < |run|
    requires path in desired.entities && Stuck(run[0].start, desired.entities[path], path)
    ensures forall j :: j in run[i].jobs ==> j.componentId != path
    ensures Assess(run[i].end, desired).outcome == Actionable
  {
    StuckAtStart(desired, run, path, i);
    StuckUntargeted(desired, run[i], path);
    PassKeepsStuck(desired, run[i], path);
    StuckIsActionable(desired, run[i].end, path);
  }

  lemma {:induction false} StuckIsActionable(desired: Tree, observed: Tree, path: string)
    requires path in desired.entities && Stuck(observed, desired.entities[path], path)
    ensures Assess(observed, desired).outcome == Actionable
  {
    StuckExact(observed, desired, path);
    assert path in DriftedPaths(observed, desired) && path in observed.entities.Keys;
  }

  // --- the contract can be met -----------------------------------------------

  /** What a device that does as it is told looks like after a step. */
  function Obeyed(desired: Tree, before: Tree, step: CampaignStep): Tree
  {
    Tree(map p | p in before.entities.Keys + (Targeted(step) * desired.entities.Keys) ::
      if p in Targeted(step) && p in desired.entities then desired.entities[p].(adminDisabled := None) else before.entities[p])
  }

  lemma {:induction false} ObeyedRealises(desired: Tree, start: Tree, hub: Hub, job: FlashJob)
    requires IsDirectJob(job, desired, start, hub, job.componentId)
    ensures Realised(job, desired.entities[job.componentId].(adminDisabled := None))
  {
    var want := desired.entities[job.componentId];
    if !want.disabled {
      var parts := EnvelopeParts(want.parts, hub.index);
      var m := job.envelope.value;
      assert m.components == ComponentsFor(job.componentId, parts, hub.device);
      forall d | d in Declared(job.envelope) ensures d in BankBytes(want.parts) {
        var c :| c in m.components && c.digest == Some(d);
        var i :| 0 <= i < |m.components| && m.components[i] == c;
        assert want.parts[i] in want.parts && want.parts[i].content.bytes == d;
      }
    }
  }

  lemma {:induction false} ObeyedCommits(desired: Tree, start: Tree, hub: Hub, before: Tree, step: CampaignStep)
    requires forall j :: j in step.jobs ==> IsDirectJob(j, desired, start, hub, j.componentId)
    ensures Commits(step, before, Obeyed(desired, before, step))
  {
    var after := Obeyed(desired, before, step);
    forall j | j in step.jobs ensures j.componentId in after.entities && Realised(j, after.entities[j.componentId]) {
      ObeyedRealises(desired, start, hub, j);
    }
  }

  lemma {:induction false} ChainExists(desired: Tree, start: Tree, hub: Hub, steps: seq<CampaignStep>, k: nat) returns (marks: seq<Tree>)
    requires GoodSteps(desired, start, hub, steps) && k <= |steps|
    ensures |marks| == k && Chain(steps, start, marks)
  {
    marks := [];
    if k > 0 {
      var init := ChainExists(desired, start, hub, steps, k - 1);
      var before := At(start, init, k - 1);
      marks := init + [Obeyed(desired, before, steps[k - 1])];
      ObeyedCommits(desired, start, hub, before, steps[k - 1]);
      forall i | 0 <= i < k ensures CommitsAt(steps, start, marks, i) {
        assert At(start, marks, i) == At(start, init, i);
        if i < k - 1 {
          assert CommitsAt(steps, start, init, i);
        }
      }
    }
  }

  /** Every plan has a pass in which any chosen number of its steps commit: the statements above are about something. */
  lemma {:induction false} PassExists(desired: Tree, start: Tree, hub: Hub, only: Allowlist, jobs: seq<FlashJob>, k: nat) returns (r: Pass)
    requires Planned(desired, Some(start), start, hub, only, jobs) && k <= |Steps(jobs, start)|
    ensures ValidPass(desired, r) && r.start == start && r.jobs == jobs && |r.marks| == k
  {
    PlanIsGood(desired, start, hub, only, jobs);
    var marks := ChainExists(desired, start, hub, Steps(jobs, start), k);
    r := Pass(start, hub, only, jobs, marks, false, At(start, marks, k));
  }
}
