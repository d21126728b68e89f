/**
 The vehicle model and the comparisons made on it: the part diff, the flash plan and the
 convergence assessment. Each loop is proved against a specification function; what those
 functions mean is proved in `WireTheorems`.
 */
module Wire {
  import opened Collections
  import opened Ordering
  import opened ContentHashes

  datatype Part = Part(kind: string, id: string, content: ContentHash)

  datatype UpdateMode = UpdateMode(mode: string, supportsRollback: bool, dualBank: bool, resetKind: string)

  datatype Entity = Entity(
    kind: string,
    version: Option<string>,
    updateMode: Option<UpdateMode>,
    parts: seq<Part>,
    disabled: bool,
    adminDisabled: Option<bool>)

  /** A vehicle's state keyed by entity path; iteration is in ascending path order. */
  datatype Tree = Tree(entities: map<string, Entity>) {
    function Paths(): seq<string>
    {
      SortedKeys(entities.Keys)
    }

    function PartsAt(path: string): seq<Part>
    {
      if path in entities then entities[path].parts else []
    }

    function AdminAt(path: string): Option<bool>
    {
      if path in entities then entities[path].adminDisabled else None
    }
  }

  datatype Change = Added | Removed | Changed

  datatype PartChange = PartChange(entity: string, change: Change, part: string, kind: string)

  datatype TreeDiff = TreeDiff(
    entitiesAdded: seq<string>,
    entitiesRemoved: seq<string>,
    parts: seq<PartChange>)
  {
    predicate IsEmpty()
    {
      entitiesAdded == [] && entitiesRemoved == [] && parts == []
    }
  }

  datatype PartPlan = Ship | Reuse

  datatype PlannedPart = PlannedPart(entity: string, part: string, kind: string, content: ContentHash, plan: PartPlan)

  datatype AssessmentOutcome = Converged | ConvergedIgnoringDeviceOnly | Deferred | Actionable

  datatype ConvergenceAssessment = ConvergenceAssessment(
    outcome: AssessmentOutcome,
    components: seq<string>,
    ignoredDeviceOnly: seq<string>)

  // --- specification ---------------------------------------------------------

  /** The content stored under each part id. A repeated id keeps its last content. */
  function Bank(parts: seq<Part>): map<string, ContentHash>
  {
    if parts == [] then map[]
    else Bank(parts[..|parts| - 1])[parts[|parts| - 1].id := parts[|parts| - 1].content]
  }

  function Ids(parts: seq<Part>): set<string>
  {
    set p | p in parts :: p.id
  }

  /** What one desired part asks of the bank: nothing, an addition or a change. */
  function Upsert(entity: string, bank: map<string, ContentHash>, want: Part): seq<PartChange>
  {
    if want.id !in bank then [PartChange(entity, Added, want.id, want.kind)]
    else if bank[want.id] != want.content then [PartChange(entity, Changed, want.id, want.kind)]
    else []
  }

  function Upserts(entity: string, bank: map<string, ContentHash>, desired: seq<Part>): seq<PartChange>
  {
    if desired == [] then []
    else Upserts(entity, bank, desired[..|desired| - 1]) + Upsert(entity, bank, desired[|desired| - 1])
  }

  function Removals(entity: string, observed: seq<Part>, keep: set<string>): seq<PartChange>
  {
    if observed == [] then []
    else
      var p := observed[|observed| - 1];
      Removals(entity, observed[..|observed| - 1], keep)
      + if p.id in keep then [] else [PartChange(entity, Removed, p.id, p.kind)]
  }

  function PartChanges(entity: string, observed: seq<Part>, desired: seq<Part>): seq<PartChange>
  {
    Upserts(entity, Bank(observed), desired) + Removals(entity, observed, Ids(desired))
  }

  function ChangesAt(observed: Tree, desired: Tree, path: string): seq<PartChange>
  {
    PartChanges(path, observed.PartsAt(path), desired.PartsAt(path))
  }

  function ChangesOver(observed: Tree, desired: Tree, paths: seq<string>): seq<PartChange>
  {
    if paths == [] then []
    else ChangesOver(observed, desired, paths[..|paths| - 1]) + ChangesAt(observed, desired, paths[|paths| - 1])
  }

  /** The listed paths that are not in `present`, in the listed order. */
  function Missing(paths: seq<string>, present: set<string>): seq<string>
  {
    if paths == [] then []
    else
      var last := paths[|paths| - 1];
      Missing(paths[..|paths| - 1], present) + if last in present then [] else [last]
  }

  lemma {:induction false} MissingMembers(paths: seq<string>, present: set<string>)
    ensures forall x :: x in Missing(paths, present) <==> x in paths && x !in present
  {
    if paths != [] {
      MissingMembers(paths[..|paths| - 1], present);
      assert paths == paths[..|paths| - 1] + [paths[|paths| - 1]];
    }
  }

  lemma {:induction false} MissingStep(paths: seq<string>, present: set<string>, i: nat)
    requires i < |paths|
    ensures Missing(paths[..i + 1], present)
         == Missing(paths[..i], present) + if paths[i] in present then [] else [paths[i]]
  {
    assert paths[..i + 1][..i] == paths[..i];
  }

  lemma {:induction false} ChangesOverSnoc(observed: Tree, desired: Tree, paths: seq<string>, path: string)
    ensures ChangesOver(observed, desired, paths + [path])
         == ChangesOver(observed, desired, paths) + ChangesAt(observed, desired, path)
  {
    assert (paths + [path])[..|paths|] == paths;
  }

  /** Paths on the device that the release does not mention. */
  function DeviceOnly(observed: Tree, desired: Tree): seq<string>
  {
    Missing(observed.Paths(), desired.entities.Keys)
  }

  function Diff(observed: Tree, desired: Tree): TreeDiff
  {
    var gone := DeviceOnly(observed, desired);
    TreeDiff(
      Missing(desired.Paths(), observed.entities.Keys),
      gone,
      ChangesOver(observed, desired, desired.Paths()) + ChangesOver(observed, desired, gone))
  }

  function PlanPart(entity: string, bank: map<string, ContentHash>, want: Part): PlannedPart
  {
    var held := want.id in bank && bank[want.id] == want.content;
    PlannedPart(entity, want.id, want.kind, want.content, if held then Reuse else Ship)
  }

  function PlanParts(entity: string, bank: map<string, ContentHash>, desired: seq<Part>): seq<PlannedPart>
  {
    if desired == [] then []
    else PlanParts(entity, bank, desired[..|desired| - 1]) + [PlanPart(entity, bank, desired[|desired| - 1])]
  }

  function PlanAt(observed: Tree, desired: Tree, path: string): seq<PlannedPart>
  {
    PlanParts(path, Bank(observed.PartsAt(path)), desired.PartsAt(path))
  }

  function PlanOver(observed: Tree, desired: Tree, paths: seq<string>): seq<PlannedPart>
  {
    if paths == [] then []
    else PlanOver(observed, desired, paths[..|paths| - 1]) + PlanAt(observed, desired, paths[|paths| - 1])
  }

  function FlashPlan(observed: Tree, desired: Tree): seq<PlannedPart>
  {
    PlanOver(observed, desired, desired.Paths())
  }

  /**
   Does the desired component `id` still need something done? An enabled one does when it is
   absent, differs part by part or is reported disabled; a disabled one only when it is
   reported enabled.
   */
  predicate Drifted(observed: Tree, desired: Tree, id: string)
    requires id in desired.entities
  {
    if desired.entities[id].disabled then
      observed.AdminAt(id) == Some(false)
    else
      || id !in observed.entities
      || ChangesAt(observed, desired, id) != []
      || observed.AdminAt(id) == Some(true)
  }

  function DriftedPaths(observed: Tree, desired: Tree): set<string>
  {
    set id | id in desired.entities && Drifted(observed, desired, id)
  }

  function Outcome(observed: Tree, actionable: set<string>, deviceOnly: seq<string>): AssessmentOutcome
  {
    if actionable == {} then (if deviceOnly == [] then Converged else ConvergedIgnoringDeviceOnly)
    else if actionable !! observed.entities.Keys then Deferred
    else Actionable
  }

  function Assess(observed: Tree, desired: Tree): ConvergenceAssessment
  {
    var drifted := DriftedPaths(observed, desired);
    var gone := DeviceOnly(observed, desired);
    ConvergenceAssessment(Outcome(observed, drifted, gone), SortedKeys(drifted), gone)
  }

  // --- the loops -------------------------------------------------------------

  method BankOf(parts: seq<Part>) returns (bank: map<string, ContentHash>)
    ensures bank == Bank(parts)
  {
    bank := map[];
    for i := 0 to |parts|
      invariant bank == Bank(parts[..i])
    {
      bank := bank[parts[i].id := parts[i].content];
      assert parts[..i + 1][..i] == parts[..i];
    }
    assert parts[..|parts|] == parts;
  }

  method DiffParts(entity: string, observed: seq<Part>, desired: seq<Part>, out: seq<PartChange>)
    returns (r: seq<PartChange>)
    ensures r == out + PartChanges(entity, observed, desired)
  {
    var bank := BankOf(observed);
    var keep := set p | p in desired :: p.id;
    var upserts: seq<PartChange> := [];
    for i := 0 to |desired|
      invariant upserts == Upserts(entity, bank, desired[..i])
    {
      assert desired[..i + 1][..i] == desired[..i];
      var dp := desired[i];
      if dp.id !in bank {
        upserts := upserts + [PartChange(entity, Added, dp.id, dp.kind)];
      } else if bank[dp.id] != dp.content {
        upserts := upserts + [PartChange(entity, Changed, dp.id, dp.kind)];
      }
    }
    assert desired[..|desired|] == desired;
    var removals := DiffRemovals(entity, observed, keep);
    r := out + (upserts + removals);
  }

  /** Observed parts the desired entity no longer has. */
  method DiffRemovals(entity: string, observed: seq<Part>, keep: set<string>) returns (r: seq<PartChange>)
    ensures r == Removals(entity, observed, keep)
  {
    r := [];
    for i := 0 to |observed|
      invariant r == Removals(entity, observed[..i], keep)
    {
      assert observed[..i + 1][..i] == observed[..i];
      if observed[i].id !in keep {
        r := r + [PartChange(entity, Removed, observed[i].id, observed[i].kind)];
      }
    }
    assert observed[..|observed|] == observed;
  }

  /** First half of the diff: every desired entity, structurally and part by part. */
  method DiffDesired(observed: Tree, desired: Tree, paths: seq<string>)
    returns (added: seq<string>, parts: seq<PartChange>)
    requires forall p :: p in paths ==> p in desired.entities
    ensures added == Missing(paths, observed.entities.Keys)
    ensures parts == ChangesOver(observed, desired, paths)
  {
    added, parts := [], [];
    for i := 0 to |paths|
      invariant added == Missing(paths[..i], observed.entities.Keys)
      invariant parts == ChangesOver(observed, desired, paths[..i])
    {
      var path := paths[i];
      if path !in observed.entities {
        added := added + [path];
      }
      var have := if path in observed.entities then observed.entities[path].parts else [];
      parts := DiffParts(path, have, desired.entities[path].parts, parts);
      assert paths[..i + 1][..i] == paths[..i];
    }
    assert paths[..|paths|] == paths;
  }

  /** Second half: every observed entity the release no longer has. */
  method DiffRetired(observed: Tree, desired: Tree, paths: seq<string>)
    returns (gone: seq<string>, parts: seq<PartChange>)
    requires forall p :: p in paths ==> p in observed.entities
    ensures gone == Missing(paths, desired.entities.Keys)
    ensures parts == ChangesOver(observed, desired, gone)
  {
    gone, parts := [], [];
    for i := 0 to |paths|
      invariant gone == Missing(paths[..i], desired.entities.Keys)
      invariant parts == ChangesOver(observed, desired, gone)
    {
      var path := paths[i];
      MissingStep(paths, desired.entities.Keys, i);
      if path !in desired.entities {
        ChangesOverSnoc(observed, desired, gone, path);
        parts := DiffParts(path, observed.entities[path].parts, [], parts);
        gone := gone + [path];
      }
    }
    assert paths[..|paths|] == paths;
  }

  method DiffTrees(observed: Tree, desired: Tree) returns (d: TreeDiff)
    ensures d == Diff(observed, desired)
  {
    var added, kept := DiffDesired(observed, desired, desired.Paths());
    var gone, retired := DiffRetired(observed, desired, observed.Paths());
    d := TreeDiff(added, gone, kept + retired);
  }

  method PlanEntity(path: string, active: map<string, ContentHash>, parts: seq<Part>, out: seq<PlannedPart>)
    returns (plan: seq<PlannedPart>)
    ensures plan == out + PlanParts(path, active, parts)
  {
    plan := out;
    for k := 0 to |parts|
      invariant plan == out + PlanParts(path, active, parts[..k])
    {
      var held := parts[k].id in active && active[parts[k].id] == parts[k].content;
      plan := plan
      + [PlannedPart(path, parts[k].id, parts[k].kind, parts[k].content, if held then Reuse else Ship)];
      assert parts[..k + 1][..k] == parts[..k];
    }
    assert parts[..|parts|] == parts;
  }

  method PlanPaths(observed: Tree, desired: Tree, paths: seq<string>) returns (plan: seq<PlannedPart>)
    requires forall p :: p in paths ==> p in desired.entities
    ensures plan == PlanOver(observed, desired, paths)
  {
    plan := [];
    for i := 0 to |paths|
      invariant plan == PlanOver(observed, desired, paths[..i])
    {
      var path := paths[i];
      var active := BankOf(if path in observed.entities then observed.entities[path].parts else []);
      plan := PlanEntity(path, active, desired.entities[path].parts, plan);
      assert paths[..i + 1][..i] == paths[..i];
    }
    assert paths[..|paths|] == paths;
  }

  method ComputeFlashPlan(observed: Tree, desired: Tree) returns (plan: seq<PlannedPart>)
    ensures plan == FlashPlan(observed, desired)
  {
    plan := PlanPaths(observed, desired, desired.Paths());
  }

  /** What is actionable once it is known which desired paths differ part by part. */
  ghost function DriftedGiven(observed: Tree, desired: Tree, differing: set<string>): set<string>
  {
    set id | id in desired.entities &&
             if desired.entities[id].disabled then observed.AdminAt(id) == Some(false)
             else id !in observed.entities || id in differing || observed.AdminAt(id) == Some(true)
  }

  /** The three collecting loops of the assessment. */
  method CollectActionable(observed: Tree, desired: Tree, added: seq<string>, changes: seq<PartChange>,
                           paths: seq<string>, ghost differing: set<string>)
    returns (actionable: set<string>)
    requires forall id :: id in added <==> id in desired.entities && id !in observed.entities
    requires forall k :: 0 <= k < |changes| && changes[k].entity in desired.entities ==> changes[k].entity in differing
    requires forall id :: id in differing ==> exists k :: 0 <= k < |changes| && changes[k].entity == id
    requires forall id :: id in paths <==> id in desired.entities
    ensures actionable == DriftedGiven(observed, desired, differing)
  {
    actionable := {};
    for i := 0 to |added|
      invariant actionable <= DriftedGiven(observed, desired, differing)
      invariant forall id :: id in added[..i] ==> desired.entities[id].disabled || id in actionable
    {
      if !desired.entities[added[i]].disabled {
        actionable := actionable + {added[i]};
      }
      assert added[..i + 1] == added[..i] + [added[i]];
    }
    assert added[..|added|] == added;
    ghost var absent := actionable;
    for i := 0 to |changes|
      invariant absent <= actionable <= DriftedGiven(observed, desired, differing)
      invariant forall k :: 0 <= k < i && changes[k].entity in desired.entities ==>
        desired.entities[changes[k].entity].disabled || changes[k].entity in actionable
    {
      var id := changes[i].entity;
      if id in desired.entities {
        var admin := observed.AdminAt(id);
        if !desired.entities[id].disabled || admin == Some(false) {
          actionable := actionable + {id};
        }
      }
    }
    ghost var content := actionable;
    for i := 0 to |paths|
      invariant absent <= content <= actionable <= DriftedGiven(observed, desired, differing)
      invariant forall id :: id in paths[..i] ==>
        (observed.AdminAt(id) == Some(!desired.entities[id].disabled) ==> id in actionable)
    {
      var id := paths[i];
      var admin := observed.AdminAt(id);
      var want := desired.entities[id];
      if (want.disabled && admin == Some(false)) || (!want.disabled && admin == Some(true)) {
        actionable := actionable + {id};
      }
      assert paths[..i + 1] == paths[..i] + [paths[i]];
    }
    assert paths[..|paths|] == paths;
  }

  method AssessTree(observed: Tree, desired: Tree) returns (a: ConvergenceAssessment)
    ensures a == Assess(observed, desired)
  {
    var delta := DiffTrees(observed, desired);
    DiffFaithful(observed, desired);
    var actionable := CollectActionable(
      observed, desired, delta.entitiesAdded, delta.parts, desired.Paths(), DifferingPaths(observed, desired));
    DriftedIsGiven(observed, desired);
    a := Conclude(observed, actionable, delta.entitiesRemoved);
  }

  method Conclude(observed: Tree, actionable: set<string>, deviceOnly: seq<string>) returns (a: ConvergenceAssessment)
    ensures a == ConvergenceAssessment(Outcome(observed, actionable, deviceOnly), SortedKeys(actionable), deviceOnly)
  {
    var components := SortedKeys(actionable);
    var outcome;
    if components == [] {
      assert actionable == {} by {
        assert |actionable| == |components|;
      }
      outcome := if deviceOnly == [] then Converged else ConvergedIgnoringDeviceOnly;
    } else {
      assert components[0] in components;
      if forall id :: id in components ==> id !in observed.entities {
        outcome := Deferred;
      } else {
        outcome := Actionable;
      }
    }
    a := ConvergenceAssessment(outcome, components, deviceOnly);
  }

  // --- which path a change belongs to ----------------------------------------

  lemma {:induction false} UpsertsNameEntity(entity: string, bank: map<string, ContentHash>, desired: seq<Part>)
    ensures forall c :: c in Upserts(entity, bank, desired) ==> c.entity == entity && c.change != Removed
  {
    if desired != [] {
      UpsertsNameEntity(entity, bank, desired[..|desired| - 1]);
    }
  }

  lemma {:induction false} RemovalsNameEntity(entity: string, observed: seq<Part>, keep: set<string>)
    ensures forall c :: c in Removals(entity, observed, keep) ==> c.entity == entity && c.change == Removed
  {
    if observed != [] {
      RemovalsNameEntity(entity, observed[..|observed| - 1], keep);
    }
  }

  /** A change listed for some paths comes from one of them, and is exactly a change of that path. */
  lemma {:induction false} ChangesOverBelong(observed: Tree, desired: Tree, paths: seq<string>, c: PartChange)
    ensures c in ChangesOver(observed, desired, paths)
            <==> c.entity in paths && c in ChangesAt(observed, desired, c.entity)
  {
    if paths != [] {
      var last := paths[|paths| - 1];
      assert paths == paths[..|paths| - 1] + [last];
      ChangesOverBelong(observed, desired, paths[..|paths| - 1], c);
      UpsertsNameEntity(last, Bank(observed.PartsAt(last)), desired.PartsAt(last));
      RemovalsNameEntity(last, observed.PartsAt(last), Ids(desired.PartsAt(last)));
    }
  }

  lemma {:induction false} DiffPartBelongs(observed: Tree, desired: Tree, c: PartChange)
    requires c in Diff(observed, desired).parts
    ensures c in ChangesAt(observed, desired, c.entity)
  {
    ChangesOverBelong(observed, desired, desired.Paths(), c);
    ChangesOverBelong(observed, desired, DeviceOnly(observed, desired), c);
  }

  lemma {:induction false} DiffCoversPath(observed: Tree, desired: Tree, path: string)
    requires path in desired.entities && ChangesAt(observed, desired, path) != []
    ensures exists k :: 0 <= k < |Diff(observed, desired).parts| && Diff(observed, desired).parts[k].entity == path
  {
    var c := ChangesAt(observed, desired, path)[0];
    UpsertsNameEntity(path, Bank(observed.PartsAt(path)), desired.PartsAt(path));
    RemovalsNameEntity(path, observed.PartsAt(path), Ids(desired.PartsAt(path)));
    assert c in ChangesAt(observed, desired, path);
    ChangesOverBelong(observed, desired, desired.Paths(), c);
    assert c in Diff(observed, desired).parts;
  }

  ghost function DifferingPaths(observed: Tree, desired: Tree): set<string>
  {
    set id | id in desired.entities && ChangesAt(observed, desired, id) != []
  }

  lemma {:induction false} DriftedIsGiven(observed: Tree, desired: Tree)
    ensures DriftedGiven(observed, desired, DifferingPaths(observed, desired)) == DriftedPaths(observed, desired)
  {
  }

  /** The diff lists the absent paths, and mentions a desired path exactly when it has changes of its own. */
  lemma {:induction false} DiffFaithful(observed: Tree, desired: Tree)
    ensures var d := Diff(observed, desired);
            && (forall id :: id in d.entitiesAdded <==> id in desired.entities && id !in observed.entities)
            && (forall k :: 0 <= k < |d.parts| && d.parts[k].entity in desired.entities ==>
                  d.parts[k].entity in DifferingPaths(observed, desired))
            && (forall id :: id in DifferingPaths(observed, desired) ==>
                  exists k :: 0 <= k < |d.parts| && d.parts[k].entity == id)
  {
    MissingMembers(desired.Paths(), observed.entities.Keys);
    var d := Diff(observed, desired);
    forall k | 0 <= k < |d.parts| && d.parts[k].entity in desired.entities
      ensures d.parts[k].entity in DifferingPaths(observed, desired)
    {
      DiffPartBelongs(observed, desired, d.parts[k]);
    }
    forall id | id in DifferingPaths(observed, desired)
      ensures exists k :: 0 <= k < |d.parts| && d.parts[k].entity == id
    {
      DiffCoversPath(observed, desired, id);
    }
  }
}
