/**
 The read-only preview: what a campaign would transfer, component by component, resolved against
 the artifact index, with the device's word on whether each component can be rolled back.
 */
module Previews {
  import opened Collections
  import opened Ordering
  import opened ContentHashes
  import opened Wire
  import opened WireTheorems
  import opened DiffMeaning
  import opened Suit
  import opened Orchestrator

  datatype BlobRef = BlobRef(outer: ContentHash, size: nat)

  datatype ShipPart = ShipPart(part: string, kind: string, content: ContentHash, blob: Option<BlobRef>)

  datatype ComponentApply = ComponentApply(
    entity: string,
    version: Option<string>,
    ship: seq<ShipPart>,
    reuse: nat,
    supportsRollback: Option<bool>)

  datatype ApplyPlan = ApplyPlan(components: seq<ComponentApply>, assessment: ConvergenceAssessment)

  function ShipPartFor(p: PlannedPart, index: Index): ShipPart
  {
    ShipPart(p.part, p.kind, p.content, if p.content in index then Some(BlobRef(index[p.content].outer, index[p.content].size)) else None)
  }

  function ShipsOf(plan: seq<PlannedPart>, index: Index): seq<ShipPart>
  {
    if plan == [] then []
    else
      var p := plan[|plan| - 1];
      ShipsOf(plan[..|plan| - 1], index) + if p.plan == Ship then [ShipPartFor(p, index)] else []
  }

  function Reused(plan: seq<PlannedPart>): nat
  {
    if plan == [] then 0
    else Reused(plan[..|plan| - 1]) + if plan[|plan| - 1].plan == Reuse then 1 else 0
  }

  function VersionOf(desired: Tree, path: string): Option<string>
  {
    if path in desired.entities then desired.entities[path].version else None
  }

  function Rollback(observed: Tree, path: string): Option<bool>
  {
    if path in observed.entities && observed.entities[path].updateMode.Some?
    then Some(observed.entities[path].updateMode.value.supportsRollback) else None
  }

  /** One component's slice of the preview; a component with nothing planned is left out. */
  function ApplyAt(plan: seq<PlannedPart>, observed: Tree, desired: Tree, index: Index, path: string): seq<ComponentApply>
  {
    var mine := PlanFor(plan, path);
    if mine == [] then []
    else [ComponentApply(path, VersionOf(desired, path), ShipsOf(mine, index), Reused(mine), Rollback(observed, path))]
  }

  function ApplyOver(plan: seq<PlannedPart>, observed: Tree, desired: Tree, index: Index, only: Allowlist, paths: seq<string>): seq<ComponentApply>
  {
    if paths == [] then []
    else
      var last := paths[|paths| - 1];
      ApplyOver(plan, observed, desired, index, only, paths[..|paths| - 1])
      + if Allowed(only, last) then ApplyAt(plan, observed, desired, index, last) else []
  }

  lemma {:induction false} ApplyOverNext(plan: seq<PlannedPart>, observed: Tree, desired: Tree, index: Index, only: Allowlist, paths: seq<string>, i: nat)
    requires i < |paths|
    ensures ApplyOver(plan, observed, desired, index, only, paths[..i + 1])
         == ApplyOver(plan, observed, desired, index, only, paths[..i])
          + if Allowed(only, paths[i]) then ApplyAt(plan, observed, desired, index, paths[i]) else []
  {
    assert paths[..i + 1][..i] == paths[..i];
  }

  lemma {:induction false} SplitCounts(plan: seq<PlannedPart>, index: Index)
    ensures |ShipsOf(plan, index)| + Reused(plan) == |plan|
  {
    if plan != [] {
      SplitCounts(plan[..|plan| - 1], index);
    }
  }

  /** Collect one component's planned parts from the whole plan. */
  method SplitPlan(plan: seq<PlannedPart>, path: string, index: Index) returns (ship: seq<ShipPart>, reuse: nat)
    ensures ship == ShipsOf(PlanFor(plan, path), index)
    ensures reuse == Reused(PlanFor(plan, path))
  {
    ship, reuse := [], 0;
    ghost var mine := [];
    for i := 0 to |plan|
      invariant mine == PlanFor(plan[..i], path)
      invariant ship == ShipsOf(mine, index)
      invariant reuse == Reused(mine)
    {
      var p := plan[i];
      assert plan[..i + 1][..i] == plan[..i];
      if p.entity == path {
        assert (mine + [p])[..|mine|] == mine;
        mine := mine + [p];
        if p.plan == Reuse {
          reuse := reuse + 1;
        } else {
          var blob := if p.content in index then Some(BlobRef(index[p.content].outer, index[p.content].size)) else None;
          ship := ship + [ShipPart(p.part, p.kind, p.content, blob)];
        }
      }
    }
    assert plan[..|plan|] == plan;
  }

  method PreviewPaths(plan: seq<PlannedPart>, observed: Tree, desired: Tree, index: Index, only: Allowlist, paths: seq<string>)
    returns (components: seq<ComponentApply>)
    ensures components == ApplyOver(plan, observed, desired, index, only, paths)
  {
    components := [];
    for i := 0 to |paths|
      invariant components == ApplyOver(plan, observed, desired, index, only, paths[..i])
    {
      var path := paths[i];
      ApplyOverNext(plan, observed, desired, index, only, paths, i);
      if only.Some? && path !in only.value {
        continue;
      }
      var ship, reuse := SplitPlan(plan, path, index);
      SplitCounts(PlanFor(plan, path), index);
      if ship != [] || reuse > 0 {
        components := components + [ComponentApply(path, VersionOf(desired, path), ship, reuse, Rollback(observed, path))];
      }
    }
    assert paths[..|paths|] == paths;
  }

  /** The read-only preview: the delta per component, resolved against the index, plus the assessment. */
  method Preview(observed: Tree, desired: Tree, index: Index, only: Allowlist) returns (p: ApplyPlan)
    ensures p.assessment == Assess(observed, desired)
    ensures p.components == ApplyOver(FlashPlan(observed, desired), observed, desired, index, only, desired.Paths())
    ensures Shows(p.components, observed, desired, index, Filter((path: string) => Listed(desired, only, path), SortedKeys(desired.entities.Keys)))
  {
    PreviewExact(observed, desired, index, only);
    var plan := ComputeFlashPlan(observed, desired);
    var assessment := AssessTree(observed, desired);
    var components := PreviewPaths(plan, observed, desired, index, only, desired.Paths());
    p := ApplyPlan(components, assessment);
  }

  // --- what a preview says ---------------------------------------------------

  /** Not held under its id: shipped, with the blob the index names for its content, if any. */
  function Shipped(have: seq<Part>, index: Index, want: Part): seq<ShipPart>
  {
    if LastContent(have, want.id) == Some(want.content) then []
    else if want.content !in index then [ShipPart(want.id, want.kind, want.content, None)]
    else
      var entry := index[want.content];
      [ShipPart(want.id, want.kind, want.content, Some(BlobRef(entry.outer, entry.size)))]
  }

  /** The desired parts held under their own id. */
  function Held(have: seq<Part>, want: seq<Part>): seq<Part>
  {
    Filter((p: Part) => LastContent(have, p.id) == Some(p.content), want)
  }

  lemma {:induction false} ShipsInOrder(have: seq<Part>, index: Index, path: string, want: seq<Part>)
    ensures var plan := PlanParts(path, Bank(have), want);
            && ShipsOf(plan, index) == FlatMap((p: Part) => Shipped(have, index, p), want)
            && Reused(plan) == |Held(have, want)|
  {
    if want != [] {
      var n := |want| - 1;
      ShipsInOrder(have, index, path, want[..n]);
      BankIsLast(have, want[n].id);
      var plan := PlanParts(path, Bank(have), want);
      assert plan[..|plan| - 1] == PlanParts(path, Bank(have), want[..n]);
    }
  }

  /** What the device says about rolling a component back. */
  ghost predicate Reversibility(observed: Tree, path: string, flag: Option<bool>)
  {
    var classified := path in observed.entities && observed.entities[path].updateMode.Some?;
    && (flag.None? <==> !classified)
    && (flag == Some(true) <==> classified && observed.entities[path].updateMode.value.supportsRollback)
    && (flag == Some(false) <==> classified && !observed.entities[path].updateMode.value.supportsRollback)
  }

  /** A listed component, told from the two trees and the index alone. */
  ghost predicate Describes(c: ComponentApply, observed: Tree, desired: Tree, index: Index)
  {
    var have, want := observed.PartsAt(c.entity), desired.PartsAt(c.entity);
    && c.entity in desired.entities
    && c.version == desired.entities[c.entity].version
    && Reversibility(observed, c.entity, c.supportsRollback)
    && c.ship == FlatMap((p: Part) => Shipped(have, index, p), want)
    && c.reuse == |Held(have, want)|
  }

  /** Allowlisted, and it wants parts. */
  predicate Listed(desired: Tree, only: Allowlist, path: string)
  {
    && (only.Some? ==> path in only.value)
    && path in desired.entities
    && desired.entities[path].parts != []
  }

  /** One description per path, in the given order. */
  ghost predicate Shows(components: seq<ComponentApply>, observed: Tree, desired: Tree, index: Index, paths: seq<string>)
  {
    && |components| == |paths|
    && forall i :: 0 <= i < |paths| ==> components[i].entity == paths[i] && Describes(components[i], observed, desired, index)
  }

  function IfListed(desired: Tree, only: Allowlist, path: string): seq<string>
  {
    if Listed(desired, only, path) then [path] else []
  }

  lemma {:induction false} DescribedOne(plan: seq<PlannedPart>, observed: Tree, desired: Tree, index: Index, path: string)
    requires path in desired.entities && PlanFor(plan, path) == PlanAt(observed, desired, path) && desired.entities[path].parts != []
    ensures var shown := ApplyAt(plan, observed, desired, index, path);
            |shown| == 1 && shown[0].entity == path && Describes(shown[0], observed, desired, index)
  {
    ShipsInOrder(observed.PartsAt(path), index, path, desired.PartsAt(path));
  }

  lemma {:induction false} DescribedAt(plan: seq<PlannedPart>, observed: Tree, desired: Tree, index: Index, only: Allowlist, path: string)
    requires path in desired.entities && PlanFor(plan, path) == PlanAt(observed, desired, path)
    ensures Shows(if Allowed(only, path) then ApplyAt(plan, observed, desired, index, path) else [], observed, desired, index,
                  IfListed(desired, only, path))
  {
    if desired.entities[path].parts != [] {
      DescribedOne(plan, observed, desired, index, path);
    }
  }

  lemma {:induction false} ShowsAppend(a: seq<ComponentApply>, b: seq<ComponentApply>, observed: Tree, desired: Tree, index: Index,
                                       first: seq<string>, second: seq<string>)
    requires Shows(a, observed, desired, index, first) && Shows(b, observed, desired, index, second)
    ensures Shows(a + b, observed, desired, index, first + second)
  {
  }

  lemma {:induction false} ShownOver(plan: seq<PlannedPart>, observed: Tree, desired: Tree, index: Index, only: Allowlist, paths: seq<string>)
    requires forall p :: p in paths ==> p in desired.entities && PlanFor(plan, p) == PlanAt(observed, desired, p)
    ensures Shows(ApplyOver(plan, observed, desired, index, only, paths), observed, desired, index,
                  Filter((path: string) => Listed(desired, only, path), paths))
  {
    if paths != [] {
      var init, last := paths[..|paths| - 1], paths[|paths| - 1];
      assert last in paths;
      ShownOver(plan, observed, desired, index, only, init);
      DescribedAt(plan, observed, desired, index, only, last);
      ShowsAppend(ApplyOver(plan, observed, desired, index, only, init), if Allowed(only, last) then ApplyAt(plan, observed, desired, index, last) else [],
                  observed, desired, index, Filter((path: string) => Listed(desired, only, path), init), IfListed(desired, only, last));
    }
  }

  /**
   The preview lists the allowlisted desired components that want parts, in ascending path order,
   and says of each: the desired version, what the device reports about rollback, the parts not
   held under their id with the blob the index names, and how many are held.
   */
  lemma {:induction false} PreviewExact(observed: Tree, desired: Tree, index: Index, only: Allowlist)
    ensures Shows(ApplyOver(FlashPlan(observed, desired), observed, desired, index, only, desired.Paths()), observed, desired, index,
                  Filter((path: string) => Listed(desired, only, path), SortedKeys(desired.entities.Keys)))
  {
    var plan, paths := FlashPlan(observed, desired), desired.Paths();
    SortedKeysAscending(desired.entities.Keys);
    forall p | p in paths ensures PlanFor(plan, p) == PlanAt(observed, desired, p) {
      PlanForPaths(observed, desired, paths, p);
    }
    ShownOver(plan, observed, desired, index, only, paths);
  }

  /** What the preview calls irreversible is what the campaign runs on its own, without forcing a reset. */
  lemma {:induction false} PreviewPredictsStep(observed: Tree, desired: Tree, index: Index, c: ComponentApply, jobs: seq<FlashJob>, i: nat, j: FlashJob)
    requires Describes(c, observed, desired, index)
    requires i < |Steps(jobs, observed)| && j in Steps(jobs, observed)[i].jobs && j.componentId == c.entity
    ensures c.supportsRollback == Some(false) <==> Steps(jobs, observed)[i] == CampaignStep([j], false)
    ensures c.supportsRollback != Some(false) <==> Steps(jobs, observed)[i].forceEcuReset
  {
    ScheduleExact(jobs, observed);
    StepsAreSafe(jobs, observed);
  }
}
