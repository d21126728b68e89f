/** What the diff, the flash plan and the assessment mean, stated without their own traversals. */
module WireTheorems {
  import opened Collections
  import opened Ordering
  import opened ContentHashes
  import opened Wire

  ghost predicate DistinctIds(parts: seq<Part>)
  {
    forall i, j :: 0 <= i < j < |parts| ==> parts[i].id != parts[j].id
  }

  /** No entity repeats a part id: the primary key the release tables put on desired trees. */
  ghost predicate DistinctTree(t: Tree)
  {
    forall path :: path in t.entities ==> DistinctIds(t.entities[path].parts)
  }

  /** No id stands for two contents. */
  ghost predicate Consistent(parts: seq<Part>)
  {
    forall p, q :: p in parts && q in parts && p.id == q.id ==> p.content == q.content
  }

  ghost predicate ConsistentTree(t: Tree)
  {
    forall path :: path in t.entities ==> Consistent(t.entities[path].parts)
  }

  // --- banks -----------------------------------------------------------------

  lemma {:induction false} BankKeys(parts: seq<Part>)
    ensures Bank(parts).Keys == Ids(parts)
  {
    if parts != [] {
      BankKeys(parts[..|parts| - 1]);
      assert parts == parts[..|parts| - 1] + [parts[|parts| - 1]];
    }
  }

  lemma {:induction false} BankOfDistinct(parts: seq<Part>, p: Part)
    requires DistinctIds(parts) && p in parts
    ensures p.id in Bank(parts) && Bank(parts)[p.id] == p.content
  {
    var init, last := parts[..|parts| - 1], parts[|parts| - 1];
    if p != last {
      assert parts == init + [last];
      BankOfDistinct(init, p);
      var i :| 0 <= i < |init| && init[i] == p;
      assert parts[i].id != last.id;
    }
  }

  /** Each entry of a bank comes from a part. */
  lemma {:induction false} BankSource(parts: seq<Part>, id: string) returns (p: Part)
    requires id in Bank(parts)
    ensures p in parts && p.id == id && p.content == Bank(parts)[id]
  {
    var init, last := parts[..|parts| - 1], parts[|parts| - 1];
    p := last;
    if last.id != id {
      p := BankSource(init, id);
      assert p in init;
    }
  }

  /** A bank loses nothing exactly when its parts are consistent. */
  lemma {:induction false} BankOfConsistent(parts: seq<Part>)
    ensures Consistent(parts) <==> forall p :: p in parts ==> InBank(Bank(parts), p)
  {
    BankKeys(parts);
    assert forall p :: p in parts ==> p.id in Ids(parts);
    if Consistent(parts) {
      forall p | p in parts ensures InBank(Bank(parts), p) {
        var q := BankSource(parts, p.id);
      }
    }
    if forall p :: p in parts ==> InBank(Bank(parts), p) {
      forall p, q | p in parts && q in parts && p.id == q.id ensures p.content == q.content {
        assert InBank(Bank(parts), p) && InBank(Bank(parts), q);
      }
    }
  }

  /** Distinct ids are consistent: what the database keeps of a release always is. */
  lemma {:induction false} DistinctIsConsistent(parts: seq<Part>)
    requires DistinctIds(parts)
    ensures Consistent(parts)
  {
    forall p | p in parts ensures InBank(Bank(parts), p) {
      BankOfDistinct(parts, p);
    }
    BankOfConsistent(parts);
  }

  predicate InBank(bank: map<string, ContentHash>, p: Part)
  {
    p.id in bank && bank[p.id] == p.content
  }

  lemma {:induction false} UpsertsExact(entity: string, bank: map<string, ContentHash>, desired: seq<Part>)
    ensures Upserts(entity, bank, desired) == [] <==> forall i :: 0 <= i < |desired| ==> InBank(bank, desired[i])
  {
    if desired != [] {
      UpsertsExact(entity, bank, desired[..|desired| - 1]);
    }
  }

  lemma {:induction false} RemovalsExact(entity: string, observed: seq<Part>, keep: set<string>)
    ensures Removals(entity, observed, keep) == [] <==> Ids(observed) <= keep
  {
    if observed != [] {
      RemovalsExact(entity, observed[..|observed| - 1], keep);
      IdsSnoc(observed);
    }
  }

  lemma {:induction false} IdsSnoc(parts: seq<Part>)
    requires parts != []
    ensures Ids(parts) == Ids(parts[..|parts| - 1]) + {parts[|parts| - 1].id}
  {
    assert parts == parts[..|parts| - 1] + [parts[|parts| - 1]];
  }

  /** Nothing changes exactly when every desired part is held under its id and no other id is. */
  lemma {:induction false} PartChangesExact(entity: string, observed: seq<Part>, desired: seq<Part>)
    ensures PartChanges(entity, observed, desired) == []
            <==> && (forall p :: p in desired ==> InBank(Bank(observed), p))
                 && Ids(observed) <= Ids(desired)
  {
    UpsertsExact(entity, Bank(observed), desired);
    RemovalsExact(entity, observed, Ids(desired));
    assert forall i :: 0 <= i < |desired| ==> desired[i] in desired;
  }

  /** The two banks then hold the same content per id, and the desired parts contradict each other nowhere. */
  lemma {:induction false} ContentExact(entity: string, observed: seq<Part>, desired: seq<Part>)
    ensures PartChanges(entity, observed, desired) == [] <==> Bank(observed) == Bank(desired) && Consistent(desired)
  {
    PartChangesExact(entity, observed, desired);
    BankKeys(observed);
    BankKeys(desired);
    BankOfConsistent(desired);
    if PartChanges(entity, observed, desired) == [] {
      forall id | id in Bank(desired) ensures id in Bank(observed) && Bank(observed)[id] == Bank(desired)[id] {
        var p := BankSource(desired, id);
      }
      assert Bank(observed) == Bank(desired);
    }
  }

  // --- diff is a complete edit script ----------------------------------------

  type View = map<string, map<string, ContentHash>>

  /** A tree reduced to what an update can change: which paths exist and which content each id has. */
  ghost function ViewOf(t: Tree): View
  {
    map path | path in t.entities :: Bank(t.entities[path].parts)
  }

  predicate NoChange(observed: Tree, desired: Tree, path: string)
  {
    ChangesAt(observed, desired, path) == []
  }

  lemma {:induction false} ChangesOverIsFlatMap(observed: Tree, desired: Tree, paths: seq<string>)
    ensures ChangesOver(observed, desired, paths) == FlatMap((path: string) => ChangesAt(observed, desired, path), paths)
  {
    if paths != [] {
      ChangesOverIsFlatMap(observed, desired, paths[..|paths| - 1]);
    }
  }

  lemma {:induction false} NoChangesOver(observed: Tree, desired: Tree, paths: seq<string>)
    ensures ChangesOver(observed, desired, paths) == [] <==> forall path :: path in paths ==> NoChange(observed, desired, path)
  {
    var at := (path: string) => ChangesAt(observed, desired, path);
    ChangesOverIsFlatMap(observed, desired, paths);
    FlatMapEmpty(at, paths);
    assert forall i :: 0 <= i < |paths| ==> (at(paths[i]) == [] <==> NoChange(observed, desired, paths[i]));
  }

  lemma {:induction false} MissingEmpty(paths: seq<string>, present: set<string>)
    ensures Missing(paths, present) == [] <==> forall x :: x in paths ==> x in present
  {
    MissingMembers(paths, present);
    assert Missing(paths, present) != [] ==> Missing(paths, present)[0] in Missing(paths, present);
  }

  /** Duplicates included: the diff is empty exactly when paths agree and no path has a change. */
  lemma {:induction false} DiffEmptyGeneral(observed: Tree, desired: Tree)
    ensures Diff(observed, desired).IsEmpty()
            <==> && observed.entities.Keys == desired.entities.Keys
                 && forall path :: path in desired.entities ==> NoChange(observed, desired, path)
  {
    DiffEmptyOver(observed, desired, desired.Paths(), observed.Paths());
  }

  lemma {:induction false} NothingMissing(observed: Tree, desired: Tree, wanted: seq<string>, seen: seq<string>)
    requires forall x :: x in wanted <==> x in desired.entities
    requires forall x :: x in seen <==> x in observed.entities
    ensures Missing(wanted, observed.entities.Keys) == [] && Missing(seen, desired.entities.Keys) == []
            <==> observed.entities.Keys == desired.entities.Keys
  {
    MissingEmpty(wanted, observed.entities.Keys);
    MissingEmpty(seen, desired.entities.Keys);
  }

  lemma {:induction false} DiffEmptyOver(observed: Tree, desired: Tree, wanted: seq<string>, seen: seq<string>)
    requires forall x :: x in wanted <==> x in desired.entities
    requires forall x :: x in seen <==> x in observed.entities
    ensures var added, gone := Missing(wanted, observed.entities.Keys), Missing(seen, desired.entities.Keys);
            added == [] && gone == []
            && ChangesOver(observed, desired, wanted) + ChangesOver(observed, desired, gone) == []
            <==> && observed.entities.Keys == desired.entities.Keys
                 && forall path :: path in desired.entities ==> NoChange(observed, desired, path)
  {
    NothingMissing(observed, desired, wanted, seen);
    NoChangesOver(observed, desired, wanted);
    assert (forall path :: path in wanted ==> NoChange(observed, desired, path))
      <==> forall path :: path in desired.entities ==> NoChange(observed, desired, path);
    assert ChangesOver(observed, desired, []) == [];
  }

  lemma {:induction false} NoChangeExact(observed: Tree, desired: Tree, path: string)
    requires path in observed.entities && path in desired.entities
    ensures NoChange(observed, desired, path)
            <==> ViewOf(observed)[path] == ViewOf(desired)[path] && Consistent(desired.entities[path].parts)
  {
    ContentExact(path, observed.PartsAt(path), desired.PartsAt(path));
  }

  lemma {:induction false} ViewsAgree(observed: Tree, desired: Tree)
    ensures ViewOf(observed) == ViewOf(desired) && ConsistentTree(desired)
            <==> && observed.entities.Keys == desired.entities.Keys
                 && forall path :: path in desired.entities ==> NoChange(observed, desired, path)
  {
    assert ViewOf(observed).Keys == observed.entities.Keys && ViewOf(desired).Keys == desired.entities.Keys;
    if observed.entities.Keys == desired.entities.Keys {
      forall path | path in desired.entities
        ensures NoChange(observed, desired, path)
                <==> ViewOf(observed)[path] == ViewOf(desired)[path] && Consistent(desired.entities[path].parts)
      {
        NoChangeExact(observed, desired, path);
      }
      SameViews(ViewOf(observed), ViewOf(desired));
    }
  }

  lemma {:induction false} SameViews(a: View, b: View)
    requires a.Keys == b.Keys
    ensures a == b <==> forall path :: path in b ==> a[path] == b[path]
  {
  }

  /**
   For all trees: an empty diff means the same paths with the same content under the same ids, in
   a desired tree that gives no id two contents, and conversely.
   */
  lemma {:induction false} DiffEmptyExact(observed: Tree, desired: Tree)
    ensures Diff(observed, desired).IsEmpty() <==> ViewOf(observed) == ViewOf(desired) && ConsistentTree(desired)
  {
    DiffEmptyGeneral(observed, desired);
    ViewsAgree(observed, desired);
  }

  /** Against what the database keeps, whose ids are distinct, an empty diff is equality of paths and contents. */
  lemma {:induction false} DiffEmptyDistinct(observed: Tree, desired: Tree)
    requires DistinctTree(desired)
    ensures Diff(observed, desired).IsEmpty() <==> ViewOf(observed) == ViewOf(desired)
  {
    DiffEmptyExact(observed, desired);
    forall path | path in desired.entities ensures Consistent(desired.entities[path].parts) {
      DistinctIsConsistent(desired.entities[path].parts);
    }
  }

  /** A tree differs from itself exactly when one of its entities gives an id two contents. */
  lemma {:induction false} SelfDiffExact(t: Tree)
    ensures Diff(t, t).IsEmpty() <==> ConsistentTree(t)
  {
    DiffEmptyExact(t, t);
  }

  /** The smallest tree that does. */
  lemma {:induction false} DuplicateIdsDiffer(first: ContentHash, second: ContentHash)
    requires first != second
    ensures var e := Entity("vm", None, None, [Part("file", "k", first), Part("file", "k", second)], false, None);
            var t := Tree(map["vm1" := e]);
            !Diff(t, t).IsEmpty()
  {
    var parts := [Part("file", "k", first), Part("file", "k", second)];
    var t := Tree(map["vm1" := Entity("vm", None, None, parts, false, None)]);
    assert parts[0] in parts && parts[1] in parts;
    assert "vm1" in t.entities && !Consistent(t.entities["vm1"].parts);
    SelfDiffExact(t);
  }

  function ApplyChange(view: View, c: PartChange, want: View): View
  {
    if c.entity !in view then view
    else if c.change == Removed then view[c.entity := view[c.entity] - {c.part}]
    else if c.entity in want && c.part in want[c.entity] then
      view[c.entity := view[c.entity][c.part := want[c.entity][c.part]]]
    else view
  }

  function ApplyChanges(view: View, changes: seq<PartChange>, want: View): View
  {
    if changes == [] then view
    else ApplyChange(ApplyChanges(view, changes[..|changes| - 1], want), changes[|changes| - 1], want)
  }

  function Restructured(view: View, d: TreeDiff): View
  {
    var retired := map path | path in view && path !in d.entitiesRemoved :: view[path];
    var created: View := map path | path in d.entitiesAdded :: map[];
    retired + created
  }

  /** Execute a diff: retire and create entities, then make each part change with the desired content. */
  function ApplyDiff(view: View, d: TreeDiff, want: View): View
  {
    ApplyChanges(Restructured(view, d), d.parts, want)
  }

  ghost predicate Touched(changes: seq<PartChange>, path: string, id: string)
  {
    exists c :: c in changes && c.entity == path && c.part == id
  }

  function Held(m: map<string, ContentHash>, id: string): Option<ContentHash>
  {
    if id in m then Some(m[id]) else None
  }

  /** Part by part: what a change touches ends as desired, the rest stays as it was. */
  lemma {:induction false} ApplyPointwise(view: View, changes: seq<PartChange>, want: View, path: string, id: string)
    requires path in view && path in want
    requires forall c :: c in changes && c.entity == path ==> (c.change == Removed <==> c.part !in want[path])
    ensures ApplyChanges(view, changes, want).Keys == view.Keys
    ensures Held(ApplyChanges(view, changes, want)[path], id)
         == if Touched(changes, path, id) then Held(want[path], id) else Held(view[path], id)
  {
    if changes != [] {
      var init, last := changes[..|changes| - 1], changes[|changes| - 1];
      assert changes == init + [last];
      ApplyPointwise(view, init, want, path, id);
      assert last in changes;
      assert Touched(changes, path, id) <==> Touched(init, path, id) || (last.entity == path && last.part == id);
    }
  }

  lemma {:induction false} UpsertsTouch(entity: string, bank: map<string, ContentHash>, desired: seq<Part>)
    ensures forall c :: c in Upserts(entity, bank, desired) ==> c.part in Ids(desired)
    ensures forall p :: p in desired && !(p.id in bank && bank[p.id] == p.content) ==>
              exists c :: c in Upserts(entity, bank, desired) && c.part == p.id
  {
    if desired != [] {
      var init, last := desired[..|desired| - 1], desired[|desired| - 1];
      UpsertsTouch(entity, bank, init);
      assert desired == init + [last];
      assert forall c :: c in Upserts(entity, bank, init) ==> c in Upserts(entity, bank, desired);
      if !(last.id in bank && bank[last.id] == last.content) {
        var c := Upsert(entity, bank, last)[0];
        assert c in Upserts(entity, bank, desired) && c.part == last.id;
      }
    }
  }

  lemma {:induction false} RemovalsTouch(entity: string, observed: seq<Part>, keep: set<string>)
    ensures forall c :: c in Removals(entity, observed, keep) ==> c.part !in keep
    ensures forall p :: p in observed && p.id !in keep ==>
              exists c :: c in Removals(entity, observed, keep) && c.part == p.id
  {
    if observed != [] {
      var init, last := observed[..|observed| - 1], observed[|observed| - 1];
      RemovalsTouch(entity, init, keep);
      assert observed == init + [last];
      assert forall c :: c in Removals(entity, init, keep) ==> c in Removals(entity, observed, keep);
      if last.id !in keep {
        assert PartChange(entity, Removed, last.id, last.kind) in Removals(entity, observed, keep);
      }
    }
  }

  /** One path's changes: removals are exactly of undesired ids, and an untouched id already agrees. */
  lemma {:induction false} ChangesSettle(path: string, observed: seq<Part>, desired: seq<Part>)
    ensures forall c :: c in PartChanges(path, observed, desired) ==>
              c.entity == path && (c.change == Removed <==> c.part !in Bank(desired))
    ensures forall id :: !Touched(PartChanges(path, observed, desired), path, id) ==>
              Held(Bank(observed), id) == Held(Bank(desired), id)
  {
    var changes := PartChanges(path, observed, desired);
    UpsertsNameEntity(path, Bank(observed), desired);
    RemovalsNameEntity(path, observed, Ids(desired));
    UpsertsTouch(path, Bank(observed), desired);
    RemovalsTouch(path, observed, Ids(desired));
    BankKeys(desired);
    BankKeys(observed);
    forall id | Held(Bank(observed), id) != Held(Bank(desired), id) ensures Touched(changes, path, id) {
      var c :| c in changes && c.part == id by {
        if id in Bank(desired) {
          var p := BankSource(desired, id);
        } else {
          var p :| p in observed && p.id == id;
        }
      }
    }
  }

  /** Executing the diff turns the observed paths and contents into the desired ones, repeated ids or not. */
  lemma {:induction false} DiffIsEditScript(observed: Tree, desired: Tree)
    ensures ApplyDiff(ViewOf(observed), Diff(observed, desired), ViewOf(desired)) == ViewOf(desired)
  {
    var d := Diff(observed, desired);
    MissingMembers(desired.Paths(), observed.entities.Keys);
    MissingMembers(observed.Paths(), desired.entities.Keys);
    var base := Restructured(ViewOf(observed), d);
    RestructuredPaths(observed, desired, d);
    forall path | path in desired.entities ensures Settled(ApplyChanges(base, d.parts, ViewOf(desired)), desired, path) {
      ApplySettles(observed, desired, base, path);
    }
    SettledEverywhere(base, d.parts, desired);
  }

  ghost predicate Settled(view: View, desired: Tree, path: string)
    requires path in desired.entities
  {
    path in view && view[path] == Bank(desired.entities[path].parts)
  }

  lemma {:induction false} SettledEverywhere(base: View, changes: seq<PartChange>, desired: Tree)
    requires base.Keys == desired.entities.Keys
    requires forall path :: path in desired.entities ==> Settled(ApplyChanges(base, changes, ViewOf(desired)), desired, path)
    ensures ApplyChanges(base, changes, ViewOf(desired)) == ViewOf(desired)
  {
    ApplyKeepsPaths(base, changes, ViewOf(desired));
  }

  /** Before any part changes: the desired paths, each still with its observed content. */
  lemma {:induction false} RestructuredPaths(observed: Tree, desired: Tree, d: TreeDiff)
    requires forall x :: x in d.entitiesAdded <==> x in desired.entities && x !in observed.entities
    requires forall x :: x in d.entitiesRemoved <==> x in observed.entities && x !in desired.entities
    ensures var base := Restructured(ViewOf(observed), d);
            && base.Keys == desired.entities.Keys
            && forall path :: path in desired.entities ==> base[path] == Bank(observed.PartsAt(path))
  {
    var view := ViewOf(observed);
    forall path ensures path in Restructured(view, d) <==> path in desired.entities {
    }
  }

  lemma {:induction false} ApplyKeepsPaths(view: View, changes: seq<PartChange>, want: View)
    ensures ApplyChanges(view, changes, want).Keys == view.Keys
  {
    if changes != [] {
      ApplyKeepsPaths(view, changes[..|changes| - 1], want);
    }
  }

  /** The diff as a whole touches an id of a desired path exactly when that path's own changes do. */
  lemma {:induction false} TouchedHere(observed: Tree, desired: Tree, path: string, id: string)
    requires path in desired.entities
    ensures Touched(Diff(observed, desired).parts, path, id) <==> Touched(ChangesAt(observed, desired, path), path, id)
  {
    var parts := Diff(observed, desired).parts;
    if Touched(parts, path, id) {
      var c :| c in parts && c.entity == path && c.part == id;
      DiffPartBelongs(observed, desired, c);
    }
    if Touched(ChangesAt(observed, desired, path), path, id) {
      var c :| c in ChangesAt(observed, desired, path) && c.entity == path && c.part == id;
      ChangesOverBelong(observed, desired, desired.Paths(), c);
      assert c in parts;
    }
  }

  lemma {:induction false} HeldDetermines(a: map<string, ContentHash>, b: map<string, ContentHash>)
    requires forall id :: Held(a, id) == Held(b, id)
    ensures a == b
  {
    forall id ensures id in a <==> id in b {
      assert Held(a, id) == Held(b, id);
    }
    forall id | id in a ensures a[id] == b[id] {
      assert Held(a, id) == Held(b, id);
    }
  }

  lemma {:induction false} ApplySettles(observed: Tree, desired: Tree, base: View, path: string)
    requires path in desired.entities
    requires path in base && base[path] == Bank(observed.PartsAt(path))
    ensures Settled(ApplyChanges(base, Diff(observed, desired).parts, ViewOf(desired)), desired, path)
  {
    var parts, want := Diff(observed, desired).parts, ViewOf(desired);
    ApplyKeepsPaths(base, parts, want);
    ChangesSettle(path, observed.PartsAt(path), desired.PartsAt(path));
    forall c | c in parts && c.entity == path ensures c.change == Removed <==> c.part !in want[path] {
      DiffPartBelongs(observed, desired, c);
    }
    forall id ensures Held(ApplyChanges(base, parts, want)[path], id) == Held(want[path], id) {
      ApplyPointwise(base, parts, want, path, id);
      TouchedHere(observed, desired, path, id);
    }
    HeldDetermines(ApplyChanges(base, parts, want)[path], want[path]);
  }

  // --- the two traversals ----------------------------------------------------

  datatype Item = Item(entity: string, part: string, kind: string)

  /** The parts a plan ships, in plan order. */
  function Ships(plan: seq<PlannedPart>): seq<Item>
  {
    if plan == [] then []
    else
      var p := plan[|plan| - 1];
      Ships(plan[..|plan| - 1]) + if p.plan == Ship then [Item(p.entity, p.part, p.kind)] else []
  }

  /** The additions and changes of a diff, in diff order. */
  function Arrivals(changes: seq<PartChange>): seq<Item>
  {
    if changes == [] then []
    else
      var c := changes[|changes| - 1];
      Arrivals(changes[..|changes| - 1]) + if c.change != Removed then [Item(c.entity, c.part, c.kind)] else []
  }

  lemma {:induction false} ShipsAppend(a: seq<PlannedPart>, b: seq<PlannedPart>)
    ensures Ships(a + b) == Ships(a) + Ships(b)
  {
    if b == [] {
      assert a + b == a;
    } else {
      assert (a + b)[..|a + b| - 1] == a + b[..|b| - 1];
      ShipsAppend(a, b[..|b| - 1]);
    }
  }

  lemma {:induction false} ArrivalsAppend(a: seq<PartChange>, b: seq<PartChange>)
    ensures Arrivals(a + b) == Arrivals(a) + Arrivals(b)
  {
    if b == [] {
      assert a + b == a;
    } else {
      assert (a + b)[..|a + b| - 1] == a + b[..|b| - 1];
      ArrivalsAppend(a, b[..|b| - 1]);
    }
  }

  lemma {:induction false} NoArrivals(changes: seq<PartChange>)
    requires forall c :: c in changes ==> c.change == Removed
    ensures Arrivals(changes) == []
  {
    if changes != [] {
      assert changes[|changes| - 1] in changes;
      NoArrivals(changes[..|changes| - 1]);
    }
  }

  lemma {:induction false} PartsAgree(path: string, bank: map<string, ContentHash>, desired: seq<Part>)
    ensures Ships(PlanParts(path, bank, desired)) == Arrivals(Upserts(path, bank, desired))
  {
    if desired != [] {
      var init, last := desired[..|desired| - 1], desired[|desired| - 1];
      PartsAgree(path, bank, init);
      ShipsAppend(PlanParts(path, bank, init), [PlanPart(path, bank, last)]);
      ArrivalsAppend(Upserts(path, bank, init), Upsert(path, bank, last));
      assert Ships([PlanPart(path, bank, last)]) == Arrivals(Upsert(path, bank, last)) by {
        assert Ships([]) == [] && Arrivals([]) == [];
      }
    }
  }

  lemma {:induction false} PathAgrees(observed: Tree, desired: Tree, path: string)
    ensures Ships(PlanAt(observed, desired, path)) == Arrivals(ChangesAt(observed, desired, path))
  {
    var bank, have, want := Bank(observed.PartsAt(path)), observed.PartsAt(path), desired.PartsAt(path);
    PartsAgree(path, bank, want);
    RemovalsNameEntity(path, have, Ids(want));
    NoArrivals(Removals(path, have, Ids(want)));
    ArrivalsAppend(Upserts(path, bank, want), Removals(path, have, Ids(want)));
  }

  lemma {:induction false} EachAgrees(planAt: string -> seq<PlannedPart>, changesAt: string -> seq<PartChange>, paths: seq<string>)
    requires forall x :: x in paths ==> Ships(planAt(x)) == Arrivals(changesAt(x))
    ensures Ships(FlatMap(planAt, paths)) == Arrivals(FlatMap(changesAt, paths))
  {
    if paths != [] {
      var init, last := paths[..|paths| - 1], paths[|paths| - 1];
      assert last in paths;
      EachAgrees(planAt, changesAt, init);
      ShipsAppend(FlatMap(planAt, init), planAt(last));
      ArrivalsAppend(FlatMap(changesAt, init), changesAt(last));
    }
  }

  lemma {:induction false} PathsAgree(observed: Tree, desired: Tree, paths: seq<string>)
    ensures Ships(PlanOver(observed, desired, paths)) == Arrivals(ChangesOver(observed, desired, paths))
  {
    var planAt := (path: string) => PlanAt(observed, desired, path);
    var changesAt := (path: string) => ChangesAt(observed, desired, path);
    PlanOverIsFlatMap(observed, desired, paths);
    ChangesOverIsFlatMap(observed, desired, paths);
    forall x | x in paths ensures Ships(planAt(x)) == Arrivals(changesAt(x)) {
      PathAgrees(observed, desired, x);
    }
    EachAgrees(planAt, changesAt, paths);
  }

  /** A path the target does not have is planned nothing, so its changes bring nothing. */
  lemma {:induction false} RetiredHaveNoArrivals(observed: Tree, desired: Tree, paths: seq<string>)
    requires forall path :: path in paths ==> path !in desired.entities
    ensures Arrivals(ChangesOver(observed, desired, paths)) == []
  {
    var planAt := (path: string) => PlanAt(observed, desired, path);
    PathsAgree(observed, desired, paths);
    PlanOverIsFlatMap(observed, desired, paths);
    forall i | 0 <= i < |paths| ensures planAt(paths[i]) == [] {
      assert paths[i] in paths;
    }
    FlatMapEmpty(planAt, paths);
    assert Ships([]) == [];
  }

  /** For all trees, duplicates included: the plan ships exactly what the diff adds or changes, in the same order. */
  lemma {:induction false} TraversalsAgree(observed: Tree, desired: Tree)
    ensures Ships(FlashPlan(observed, desired)) == Arrivals(Diff(observed, desired).parts)
  {
    var paths, gone := desired.Paths(), DeviceOnly(observed, desired);
    PathsAgree(observed, desired, paths);
    MissingMembers(observed.Paths(), desired.entities.Keys);
    RetiredHaveNoArrivals(observed, desired, gone);
    ArrivalsAppend(ChangesOver(observed, desired, paths), ChangesOver(observed, desired, gone));
  }

  // --- a component is planned from its own bank only -------------------------

  function PlanFor(plan: seq<PlannedPart>, path: string): seq<PlannedPart>
  {
    if plan == [] then []
    else
      var p := plan[|plan| - 1];
      PlanFor(plan[..|plan| - 1], path) + if p.entity == path then [p] else []
  }

  lemma {:induction false} PlanForAppend(a: seq<PlannedPart>, b: seq<PlannedPart>, path: string)
    ensures PlanFor(a + b, path) == PlanFor(a, path) + PlanFor(b, path)
  {
    if b == [] {
      assert a + b == a;
    } else {
      assert (a + b)[..|a + b| - 1] == a + b[..|b| - 1];
      PlanForAppend(a, b[..|b| - 1], path);
    }
  }

  lemma {:induction false} PlanForOwn(owner: string, bank: map<string, ContentHash>, parts: seq<Part>, path: string)
    ensures PlanFor(PlanParts(owner, bank, parts), path) == if owner == path then PlanParts(owner, bank, parts) else []
  {
    if parts != [] {
      PlanForOwn(owner, bank, parts[..|parts| - 1], path);
      var p := PlanPart(owner, bank, parts[|parts| - 1]);
      PlanForAppend(PlanParts(owner, bank, parts[..|parts| - 1]), [p], path);
      assert PlanFor([p], path) == if owner == path then [p] else [] by {
        assert PlanFor([], path) == [];
      }
    }
  }

  /** Of plans made path by path, what belongs to one path is that path's own plan. */
  lemma {:induction false} PlanForEach(at: string -> seq<PlannedPart>, paths: seq<string>, path: string)
    requires Ascending(paths)
    requires forall x :: x in paths ==> PlanFor(at(x), path) == if x == path then at(x) else []
    ensures PlanFor(FlatMap(at, paths), path) == if path in paths then at(path) else []
  {
    if paths != [] {
      var init, last := paths[..|paths| - 1], paths[|paths| - 1];
      assert last in paths;
      SnocMember(paths, path);
      PlanForEach(at, init, path);
      PlanForAppend(FlatMap(at, init), at(last), path);
      LastIsNew(paths);
    }
  }

  lemma {:induction false} PlanOverIsFlatMap(observed: Tree, desired: Tree, paths: seq<string>)
    ensures PlanOver(observed, desired, paths) == FlatMap((path: string) => PlanAt(observed, desired, path), paths)
  {
    if paths != [] {
      PlanOverIsFlatMap(observed, desired, paths[..|paths| - 1]);
    }
  }

  lemma {:induction false} PlanForPaths(observed: Tree, desired: Tree, paths: seq<string>, path: string)
    requires Ascending(paths)
    ensures PlanFor(PlanOver(observed, desired, paths), path)
         == if path in paths then PlanAt(observed, desired, path) else []
  {
    var at := (path: string) => PlanAt(observed, desired, path);
    PlanOverIsFlatMap(observed, desired, paths);
    forall x | x in paths ensures PlanFor(at(x), path) == if x == path then at(x) else [] {
      PlanForOwn(x, Bank(observed.PartsAt(x)), desired.PartsAt(x), path);
    }
    PlanForEach(at, paths, path);
  }

  lemma {:induction false} LastIsNew(paths: seq<string>)
    requires Ascending(paths) && paths != []
    ensures paths[|paths| - 1] !in paths[..|paths| - 1]
  {
    var init, last := paths[..|paths| - 1], paths[|paths| - 1];
    if last in init {
      var i :| 0 <= i < |init| && init[i] == last;
      AscendingDistinct(paths, i, |paths| - 1);
    }
  }

  /** One component's slice of the plan, for every vehicle that agrees with this one on that component's bank. */
  lemma {:induction false} PlanIsLocal(observed: Tree, other: Tree, desired: Tree, path: string)
    requires observed.PartsAt(path) == other.PartsAt(path)
    ensures PlanFor(FlashPlan(observed, desired), path) == PlanFor(FlashPlan(other, desired), path)
  {
    SortedKeysAscending(desired.entities.Keys);
    PlanForPaths(observed, desired, desired.Paths(), path);
    PlanForPaths(other, desired, desired.Paths(), path);
  }

  // --- assessment ------------------------------------------------------------

  ghost predicate Needs(observed: Tree, want: Entity, id: string)
  {
    if want.disabled then observed.AdminAt(id) == Some(false)
    else
      || id !in observed.entities
      || Bank(observed.entities[id].parts) != Bank(want.parts) || !Consistent(want.parts)
      || observed.AdminAt(id) == Some(true)
  }

  /**
   For all trees: the assessed components are exactly the desired ones that are enabled and absent,
   different, contradictory in themselves or admin-disabled, or disabled and reported enabled, in ascending order; the four outcomes
   split all inputs by that set, the advertised paths and the device-only paths.
   */
  lemma {:induction false} AssessExact(observed: Tree, desired: Tree)
    ensures var a := Assess(observed, desired);
            && Ascending(a.components)
            && (forall id :: id in a.components <==> id in desired.entities && Needs(observed, desired.entities[id], id))
            && (forall id :: id in a.ignoredDeviceOnly <==> id in observed.entities && id !in desired.entities)
            && (a.outcome == Converged <==> a.components == [] && a.ignoredDeviceOnly == [])
            && (a.outcome == ConvergedIgnoringDeviceOnly <==> a.components == [] && a.ignoredDeviceOnly != [])
            && (a.outcome == Deferred <==> a.components != [] && forall id :: id in a.components ==> id !in observed.entities)
            && (a.outcome == Actionable <==> exists id :: id in a.components && id in observed.entities)
  {
    var a, drifted := Assess(observed, desired), DriftedPaths(observed, desired);
    SortedKeysAscending(drifted);
    MissingMembers(observed.Paths(), desired.entities.Keys);
    forall id | id in desired.entities
      ensures Drifted(observed, desired, id) <==> Needs(observed, desired.entities[id], id)
    {
      ContentExact(id, observed.PartsAt(id), desired.PartsAt(id));
    }
    assert a.components == [] <==> drifted == {} by {
      assert |a.components| == |drifted|;
    }
  }
}
