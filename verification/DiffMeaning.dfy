/**
 The diff and the flash plan entry by entry: which additions, changes and removals are listed, in
 which order, and what the plan says of each desired part, all in terms of the two trees alone.
 */
module DiffMeaning {
  import opened Collections
  import opened Ordering
  import opened ContentHashes
  import opened Wire
  import opened WireTheorems

  // --- what the device holds under an id -------------------------------------

  /** The content of the last part with this id. */
  function LastContent(parts: seq<Part>, id: string): Option<ContentHash>
  {
    if parts == [] then None
    else if parts[|parts| - 1].id == id then Some(parts[|parts| - 1].content)
    else LastContent(parts[..|parts| - 1], id)
  }

  /** The `i`th part is the last one with its id. */
  ghost predicate LastOfId(parts: seq<Part>, i: nat)
    requires i < |parts|
  {
    forall j :: i < j < |parts| ==> parts[j].id != parts[i].id
  }

  /** The part that decides: the last one with the id. */
  lemma {:induction false} LastIndex(parts: seq<Part>, id: string) returns (i: nat)
    requires LastContent(parts, id).Some?
    ensures i < |parts| && LastOfId(parts, i) && parts[i].id == id && parts[i].content == LastContent(parts, id).value
  {
    var n := |parts| - 1;
    if parts[n].id == id {
      i := n;
    } else {
      i := LastIndex(parts[..n], id);
      assert forall j :: i < j < n ==> parts[..n][j] == parts[j];
    }
  }

  lemma {:induction false} NoContentExact(parts: seq<Part>, id: string)
    ensures LastContent(parts, id).None? <==> forall i :: 0 <= i < |parts| ==> parts[i].id != id
  {
    if parts != [] {
      var n := |parts| - 1;
      NoContentExact(parts[..n], id);
      assert forall i :: 0 <= i < n ==> parts[..n][i] == parts[i];
    }
  }

  lemma {:induction false} LastIsOne(parts: seq<Part>, i: nat)
    requires i < |parts| && LastOfId(parts, i)
    ensures LastContent(parts, parts[i].id) == Some(parts[i].content)
  {
    var n := |parts| - 1;
    if i < n {
      assert forall j :: i < j < n ==> parts[..n][j] == parts[j];
      LastIsOne(parts[..n], i);
    }
  }

  lemma {:induction false} BankIsLast(parts: seq<Part>, id: string)
    ensures LastContent(parts, id) == if id in Bank(parts) then Some(Bank(parts)[id]) else None
  {
    if parts != [] {
      BankIsLast(parts[..|parts| - 1], id);
    }
  }

  // --- the entries of a diff -------------------------------------------------

  /** What the two trees say about a change of one entity and part id. */
  ghost predicate Warranted(observed: Tree, desired: Tree, c: PartChange)
  {
    var have, want := observed.PartsAt(c.entity), desired.PartsAt(c.entity);
    match c.change
    case Added =>
      && (exists p :: p in want && p.id == c.part && p.kind == c.kind)
      && (forall p :: p in have ==> p.id != c.part)
    case Changed =>
      exists p, i: nat :: p in want && p.id == c.part && p.kind == c.kind
                          && i < |have| && LastOfId(have, i) && have[i].id == c.part && have[i].content != p.content
    case Removed =>
      && (exists p :: p in have && p.id == c.part && p.kind == c.kind)
      && (forall p :: p in want ==> p.id != c.part)
  }

  lemma {:induction false} UpsertMembers(entity: string, bank: map<string, ContentHash>, desired: seq<Part>, c: PartChange)
    ensures c in Upserts(entity, bank, desired) <==> exists p :: p in desired && c in Upsert(entity, bank, p)
  {
    if desired != [] {
      var init, last := desired[..|desired| - 1], desired[|desired| - 1];
      UpsertMembers(entity, bank, init, c);
      assert last in desired;
      forall p ensures p in desired <==> p in init || p == last {
        SnocMember(desired, p);
      }
    }
  }

  lemma {:induction false} RemovalMembers(entity: string, observed: seq<Part>, keep: set<string>, c: PartChange)
    ensures c in Removals(entity, observed, keep)
            <==> exists p :: p in observed && p.id !in keep && c == PartChange(entity, Removed, p.id, p.kind)
  {
    if observed != [] {
      var init, last := observed[..|observed| - 1], observed[|observed| - 1];
      RemovalMembers(entity, init, keep, c);
      assert last in observed;
      forall p ensures p in observed <==> p in init || p == last {
        SnocMember(observed, p);
      }
    }
  }

  /** An addition: nothing observed has the id. */
  lemma {:induction false} AddedExact(observed: Tree, desired: Tree, c: PartChange)
    requires c.change == Added
    ensures c in ChangesAt(observed, desired, c.entity) <==> Warranted(observed, desired, c)
  {
    var have, want := observed.PartsAt(c.entity), desired.PartsAt(c.entity);
    BankKeys(have);
    UpsertMembers(c.entity, Bank(have), want, c);
    RemovalMembers(c.entity, have, Ids(want), c);
    assert c.part in Ids(have) <==> exists p :: p in have && p.id == c.part;
  }

  /** A removal: nothing desired has the id. */
  lemma {:induction false} RemovedExact(observed: Tree, desired: Tree, c: PartChange)
    requires c.change == Removed
    ensures c in ChangesAt(observed, desired, c.entity) <==> Warranted(observed, desired, c)
  {
    var have, want := observed.PartsAt(c.entity), desired.PartsAt(c.entity);
    UpsertMembers(c.entity, Bank(have), want, c);
    RemovalMembers(c.entity, have, Ids(want), c);
    assert c.part in Ids(want) <==> exists p :: p in want && p.id == c.part;
  }

  /** A change: the last observed content under the id is another. */
  lemma {:induction false} ChangedExact(observed: Tree, desired: Tree, c: PartChange)
    requires c.change == Changed
    ensures c in ChangesAt(observed, desired, c.entity) <==> Warranted(observed, desired, c)
  {
    var have, want := observed.PartsAt(c.entity), desired.PartsAt(c.entity);
    UpsertMembers(c.entity, Bank(have), want, c);
    RemovalMembers(c.entity, have, Ids(want), c);
    BankIsLast(have, c.part);
    if c in ChangesAt(observed, desired, c.entity) {
      var i := LastIndex(have, c.part);
      var p :| p in want && c in Upsert(c.entity, Bank(have), p);
      assert LastOfId(have, i);
    }
    if Warranted(observed, desired, c) {
      var p, i: nat :| p in want && p.id == c.part && p.kind == c.kind
                       && i < |have| && LastOfId(have, i) && have[i].id == c.part && have[i].content != p.content;
      LastIsOne(have, i);
      assert c in Upsert(c.entity, Bank(have), p);
    }
  }

  /**
   For all trees: a part is listed as added exactly if only the desired entity has its id, as removed
   exactly if only the observed one has, and as changed exactly if both have and a desired content is
   not the last observed one; the entry names the kind of such a part.
   */
  lemma {:induction false} DiffEntryExact(observed: Tree, desired: Tree, c: PartChange)
    ensures c in Diff(observed, desired).parts <==> Warranted(observed, desired, c)
  {
    match c.change {
      case Added => AddedExact(observed, desired, c);
      case Changed => ChangedExact(observed, desired, c);
      case Removed => RemovedExact(observed, desired, c);
    }
    EntryOfPath(observed, desired, c);
  }

  lemma {:induction false} EntryOfPath(observed: Tree, desired: Tree, c: PartChange)
    ensures c in Diff(observed, desired).parts <==> c in ChangesAt(observed, desired, c.entity)
  {
    var wanted, gone := desired.Paths(), DeviceOnly(observed, desired);
    ChangesOverBelong(observed, desired, wanted, c);
    ChangesOverBelong(observed, desired, gone, c);
    MissingMembers(observed.Paths(), desired.entities.Keys);
    if c.entity !in desired.entities && c.entity !in observed.entities {
      assert ChangesAt(observed, desired, c.entity) == [];
    }
  }

  // --- their order -----------------------------------------------------------

  /** The entry one desired part makes. */
  function Arriving(have: seq<Part>, entity: string, want: Part): seq<PartChange>
  {
    match LastContent(have, want.id)
    case None => [PartChange(entity, Added, want.id, want.kind)]
    case Some(content) => if content == want.content then [] else [PartChange(entity, Changed, want.id, want.kind)]
  }

  /** The entry one observed part makes. */
  function Leaving(want: seq<Part>, entity: string, have: Part): seq<PartChange>
  {
    if LastContent(want, have.id).Some? then [] else [PartChange(entity, Removed, have.id, have.kind)]
  }

  /** One entity's entries: its desired parts in their order, then its observed ones in theirs. */
  function EntriesAt(observed: Tree, desired: Tree, path: string): seq<PartChange>
  {
    var have, want := observed.PartsAt(path), desired.PartsAt(path);
    FlatMap((p: Part) => Arriving(have, path, p), want) + FlatMap((p: Part) => Leaving(want, path, p), have)
  }

  lemma {:induction false} UpsertsInOrder(have: seq<Part>, entity: string, want: seq<Part>)
    ensures Upserts(entity, Bank(have), want) == FlatMap((p: Part) => Arriving(have, entity, p), want)
  {
    if want != [] {
      var last := want[|want| - 1];
      UpsertsInOrder(have, entity, want[..|want| - 1]);
      BankIsLast(have, last.id);
      assert Upsert(entity, Bank(have), last) == Arriving(have, entity, last);
    }
  }

  lemma {:induction false} RemovalsInOrder(want: seq<Part>, entity: string, have: seq<Part>)
    ensures Removals(entity, have, Ids(want)) == FlatMap((p: Part) => Leaving(want, entity, p), have)
  {
    if have != [] {
      var last := have[|have| - 1];
      RemovalsInOrder(want, entity, have[..|have| - 1]);
      BankIsLast(want, last.id);
      BankKeys(want);
      assert (if last.id in Ids(want) then [] else [PartChange(entity, Removed, last.id, last.kind)]) == Leaving(want, entity, last);
    }
  }

  lemma {:induction false} SameEach<T>(f: string -> seq<T>, g: string -> seq<T>, xs: seq<string>)
    requires forall x :: f(x) == g(x)
    ensures FlatMap(f, xs) == FlatMap(g, xs)
  {
    if xs != [] {
      SameEach(f, g, xs[..|xs| - 1]);
    }
  }

  /** The whole part list of a diff: the desired entities in ascending path order, then the retired ones. */
  lemma {:induction false} DiffSequence(observed: Tree, desired: Tree)
    ensures Diff(observed, desired).parts
         == FlatMap((path: string) => EntriesAt(observed, desired, path), SortedKeys(desired.entities.Keys))
          + FlatMap((path: string) => EntriesAt(observed, desired, path), Diff(observed, desired).entitiesRemoved)
  {
    var at := (path: string) => EntriesAt(observed, desired, path);
    var changes := (path: string) => ChangesAt(observed, desired, path);
    forall path: string ensures changes(path) == at(path) {
      UpsertsInOrder(observed.PartsAt(path), path, desired.PartsAt(path));
      RemovalsInOrder(desired.PartsAt(path), path, observed.PartsAt(path));
    }
    var gone := DeviceOnly(observed, desired);
    ChangesOverIsFlatMap(observed, desired, desired.Paths());
    ChangesOverIsFlatMap(observed, desired, gone);
    SameEach(changes, at, desired.Paths());
    SameEach(changes, at, gone);
  }

  // --- the plan --------------------------------------------------------------

  /** What is planned for one desired part: reuse if the last observed content under its id is its own, else ship. */
  function Intended(have: seq<Part>, entity: string, want: Part): PlannedPart
  {
    PlannedPart(entity, want.id, want.kind, want.content, if LastContent(have, want.id) == Some(want.content) then Reuse else Ship)
  }

  lemma {:induction false} PlanPartsInOrder(have: seq<Part>, entity: string, want: seq<Part>)
    ensures PlanParts(entity, Bank(have), want) == FlatMap((p: Part) => [Intended(have, entity, p)], want)
  {
    if want != [] {
      var last := want[|want| - 1];
      PlanPartsInOrder(have, entity, want[..|want| - 1]);
      BankIsLast(have, last.id);
      assert PlanPart(entity, Bank(have), last) == Intended(have, entity, last);
    }
  }

  function IntendedAt(observed: Tree, desired: Tree, path: string): seq<PlannedPart>
  {
    var have := observed.PartsAt(path);
    FlatMap((p: Part) => [Intended(have, path, p)], desired.PartsAt(path))
  }

  /** The whole plan: every desired part once, entities in ascending path order, parts in theirs. */
  lemma {:induction false} PlanSequence(observed: Tree, desired: Tree)
    ensures FlashPlan(observed, desired) == FlatMap((path: string) => IntendedAt(observed, desired, path), SortedKeys(desired.entities.Keys))
  {
    var at := (path: string) => IntendedAt(observed, desired, path);
    var planned := (path: string) => PlanAt(observed, desired, path);
    forall path: string ensures planned(path) == at(path) {
      PlanPartsInOrder(observed.PartsAt(path), path, desired.PartsAt(path));
    }
    PlanOverIsFlatMap(observed, desired, desired.Paths());
    SameEach(planned, at, desired.Paths());
  }
}
