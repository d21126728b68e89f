/**
 Idempotence on content fails where a create failed: exactly which runs of requests leave every
 stored release with all the content its identity stands for.
 */
module ReleaseCompleteness {
  import opened Collections
  import opened Ordering
  import opened ContentHashes
  import opened Wire
  import opened WireTheorems
  import opened Canonical
  import opened Identities
  import opened ReleaseStore
  import opened ReleaseTheorems
  import opened ReleaseReuse

  // --- a shorter list has a shorter identity string --------------------------

  function Total(parts: seq<Part>): nat
  {
    if parts == [] then 0 else Total(parts[..|parts| - 1]) + |Record(parts[|parts| - 1])|
  }

  lemma {:induction false} InsertLength(sorted: seq<Part>, p: Part)
    ensures |Records(Insert(sorted, p))| == |Records(sorted)| + |Record(p)|
  {
    if sorted != [] && !Less(p.id, sorted[0].id) {
      InsertLength(sorted[1..], p);
      RecordsCons(sorted[0], Insert(sorted[1..], p));
      RecordsCons(sorted[0], sorted[1..]);
      assert sorted == [sorted[0]] + sorted[1..];
    } else {
      RecordsCons(p, sorted);
    }
  }

  lemma {:induction false} SortLength(parts: seq<Part>)
    ensures |Records(SortById(parts))| == Total(parts)
  {
    if parts != [] {
      SortLength(parts[..|parts| - 1]);
      InsertLength(SortById(parts[..|parts| - 1]), parts[|parts| - 1]);
    }
  }

  lemma {:induction false} TotalGrows(parts: seq<Part>, n: nat)
    requires n <= |parts|
    ensures Total(parts[..n]) + |parts| - n <= Total(parts)
    decreases |parts|
  {
    if n < |parts| {
      var init := parts[..|parts| - 1];
      TotalGrows(init, n);
      assert init[..n] == parts[..n];
      assert |Record(parts[|parts| - 1])| >= 1;
    } else {
      assert parts[..n] == parts;
    }
  }

  lemma {:induction false} PreimageLength(kind: string, parts: seq<Part>)
    ensures |ComponentPreimage(kind, parts)| == |kind| + 1 + Total(parts)
  {
    SortLength(parts);
  }

  lemma {:induction false} PrefixDiffers(kind: string, parts: seq<Part>, n: nat)
    requires n < |parts|
    ensures ComponentPreimage(kind, parts[..n]) != ComponentPreimage(kind, parts)
  {
    PreimageLength(kind, parts);
    PreimageLength(kind, parts[..n]);
    TotalGrows(parts, n);
  }

  // --- which rows are complete -----------------------------------------------

  lemma {:induction false} TruncatedIsIncomplete(sha: Sha, row: ComponentRow, parts: seq<Part>, n: nat)
    requires n < |parts| && row.parts == PartRows(parts[..n]) && row.identity == ComponentKey(sha, row.kind, parts)
    requires Separates(sha, ComponentPreimage(row.kind, parts), ComponentPreimage(row.kind, parts[..n]))
    ensures !Complete(sha, row)
  {
    PrefixDiffers(row.kind, parts, n);
    forall held ensures !HoldsAll(sha, row, held) {
      if row.parts == PartRows(held) {
        PartRowsInjective(held, parts[..n]);
        KeysDiffer(sha, row.kind, parts, n);
      }
    }
  }

  lemma {:induction false} KeysDiffer(sha: Sha, kind: string, parts: seq<Part>, n: nat)
    requires n < |parts|
    requires Separates(sha, ComponentPreimage(kind, parts), ComponentPreimage(kind, parts[..n]))
    ensures ComponentKey(sha, kind, parts) != ComponentKey(sha, kind, parts[..n])
  {
    PrefixDiffers(kind, parts, n);
    if ComponentKey(sha, kind, parts) == ComponentKey(sha, kind, parts[..n]) {
      PrintInjective(sha(ComponentPreimage(kind, parts)), sha(ComponentPreimage(kind, parts[..n])));
    }
  }

  /** All members exist, and after the first repeated one no new one comes: the row then lacks nothing. */
  ghost predicate StoresAll(members: seq<int>, components: nat)
  {
    exists n: nat :: n <= |members| && GoodMembers(members[..n], components) && forall x :: x in members ==> x in members[..n]
  }

  lemma {:induction false} StoresAllExact(members: seq<int>, components: nat)
    ensures StoresAll(members, components) <==> forall x :: x in members ==> x in members[..InsertableMembers(members, components)]
  {
    var most := InsertableMembers(members, components);
    if StoresAll(members, components) {
      var n: nat :| n <= |members| && GoodMembers(members[..n], components) && forall x :: x in members ==> x in members[..n];
      GoodFits(members, components, n);
      forall x | x in members ensures x in members[..most] {
        assert x in members[..n];
        assert members[..n] <= members[..most];
      }
    }
  }

  /** A good prefix ends before the first refusal. */
  lemma {:induction false} GoodFits(members: seq<int>, components: nat, n: nat)
    requires n <= |members| && GoodMembers(members[..n], components)
    ensures n <= InsertableMembers(members, components)
  {
    assert forall i :: 0 <= i < n ==> members[..n][i] == members[i];
  }

  lemma {:induction false} MemberRowsInjective(a: seq<int>, disabledA: seq<int>, b: seq<int>, disabledB: seq<int>)
    requires MemberRows(a, disabledA) == MemberRows(b, disabledB)
    ensures a == b && SetOf(disabledA) * SetOf(a) == SetOf(disabledB) * SetOf(b)
  {
    var rows, others := MemberRows(a, disabledA), MemberRows(b, disabledB);
    forall i | 0 <= i < |a| ensures a[i] == b[i] && (a[i] in disabledA <==> b[i] in disabledB) {
      assert rows[i] == MemberRowFor(a[i], disabledA) && others[i] == MemberRowFor(b[i], disabledB);
    }
    forall x ensures x in SetOf(disabledA) * SetOf(a) <==> x in SetOf(disabledB) * SetOf(b) {
      if x in a {
        var i :| 0 <= i < |a| && a[i] == x;
      }
    }
  }

  /** The row a cut of these members leaves. */
  ghost function VehicleRowFor(sha: Sha, tag: string, version: string, members: seq<int>, disabled: seq<int>, n: nat): VehicleRow
    requires n <= |members|
  {
    VehicleRow(tag, version, VehicleKey(sha, members, disabled), MemberRows(members[..n], disabled))
  }

  lemma {:induction false} SameMembersSameKey(members: seq<int>, disabled: seq<int>, n: nat)
    requires n <= |members|
    ensures VehiclePreimage(members[..n], disabled) == VehiclePreimage(members, disabled) <==> forall x :: x in members ==> x in members[..n]
  {
    VehicleIdentityExact(members[..n], disabled, members, disabled);
    assert SetOf(members[..n]) <= SetOf(members);
    if forall x :: x in members ==> x in members[..n] {
      assert SetOf(members[..n]) == SetOf(members);
    }
    if SetOf(members[..n]) == SetOf(members) {
      forall x | x in members ensures x in members[..n] {
        assert x in SetOf(members);
      }
    }
  }

  lemma {:induction false} VehicleRowExact(sha: Sha, tag: string, version: string, members: seq<int>, disabled: seq<int>, n: nat)
    requires n <= |members|
    requires Separates(sha, VehiclePreimage(members, disabled), VehiclePreimage(members[..n], disabled))
    ensures VehicleComplete(sha, VehicleRowFor(sha, tag, version, members, disabled, n)) <==> forall x :: x in members ==> x in members[..n]
  {
    var row := VehicleRowFor(sha, tag, version, members, disabled, n);
    SameMembersSameKey(members, disabled, n);
    if forall x :: x in members ==> x in members[..n] {
      assert HoldsMembers(sha, row, members[..n], disabled);
    }
    if VehicleComplete(sha, row) {
      var held, heldDisabled :| HoldsMembers(sha, row, held, heldDisabled);
      MemberRowsInjective(held, heldDisabled, members[..n], disabled);
      VehicleIdentityExact(held, heldDisabled, members[..n], disabled);
      PrintInjective(sha(VehiclePreimage(members, disabled)), sha(VehiclePreimage(held, heldDisabled)));
    }
  }

  // --- whole runs ------------------------------------------------------------

  ghost predicate VehicleComplete(sha: Sha, row: VehicleRow)
  {
    exists members, disabled :: HoldsMembers(sha, row, members, disabled)
  }

  ghost predicate AllComplete(sha: Sha, db: Database)
  {
    && (forall i :: 0 <= i < |db.components| ==> Complete(sha, db.components[i]))
    && (forall i :: 0 <= i < |db.vehicles| ==> VehicleComplete(sha, db.vehicles[i]))
  }

  /**
   What a caller can check before a create: the release is known already, or its part ids are
   distinct; known already, or its members exist and no new one follows a repeated one.
   */
  ghost predicate Whole(sha: Sha, db: Database, r: Request)
  {
    match r
    case NewComponent(path, kind, version, parts) =>
      FindComponent(db.components, path, ComponentKey(sha, kind, parts)).Some? || DistinctIds(parts)
    case NewVehicle(tag, version, members, disabled) =>
      FindVehicle(db.vehicles, tag, VehicleKey(sha, members, disabled)).Some? || StoresAll(members, |db.components|)
    case SetTarget(_, _) => true
  }

  ghost predicate WholeRun(sha: Sha, requests: seq<Request>)
  {
    requests == []
    || (WholeRun(sha, requests[..|requests| - 1]) && Whole(sha, Run(sha, EMPTY, requests[..|requests| - 1]), requests[|requests| - 1]))
  }

  /** The hash tells a request's identity string from those of its own prefixes. */
  ghost predicate TellsPrefixes(sha: Sha, r: Request)
  {
    match r
    case NewComponent(path, kind, version, parts) =>
      forall n :: 0 <= n < |parts| ==> Separates(sha, ComponentPreimage(kind, parts), ComponentPreimage(kind, parts[..n]))
    case NewVehicle(tag, version, members, disabled) =>
      forall n :: 0 <= n <= |members| ==> Separates(sha, VehiclePreimage(members, disabled), VehiclePreimage(members[..n], disabled))
    case SetTarget(_, _) => true
  }

  lemma {:induction false} NewComponentExact(sha: Sha, path: string, kind: string, version: string, parts: seq<Part>)
    requires TellsPrefixes(sha, NewComponent(path, kind, version, parts))
    ensures Complete(sha, ComponentRow(path, kind, version, ComponentKey(sha, kind, parts), PartRows(parts[..InsertableParts(parts)]))) <==> DistinctIds(parts)
  {
    var n := InsertableParts(parts);
    var row := ComponentRow(path, kind, version, ComponentKey(sha, kind, parts), PartRows(parts[..n]));
    InsertableExact(parts);
    if n < |parts| {
      TruncatedIsIncomplete(sha, row, parts, n);
    } else {
      assert parts[..n] == parts;
      assert HoldsAll(sha, row, parts);
    }
  }

  lemma {:induction false} ComponentStep(sha: Sha, db: Database, path: string, kind: string, version: string, parts: seq<Part>)
    requires TellsPrefixes(sha, NewComponent(path, kind, version, parts))
    ensures AllComplete(sha, CreateComponent(sha, db, path, kind, version, parts).0)
            <==> AllComplete(sha, db) && Whole(sha, db, NewComponent(path, kind, version, parts))
  {
    if FindComponent(db.components, path, ComponentKey(sha, kind, parts)).None? {
      var row := ComponentRow(path, kind, version, ComponentKey(sha, kind, parts), PartRows(parts[..InsertableParts(parts)]));
      NewComponentExact(sha, path, kind, version, parts);
      AddedRow(sha, db, row);
    }
  }

  lemma {:induction false} AddedRow(sha: Sha, db: Database, row: ComponentRow)
    ensures AllComplete(sha, db.(components := db.components + [row])) <==> AllComplete(sha, db) && Complete(sha, row)
  {
    var rows := db.components + [row];
    assert forall i :: 0 <= i < |db.components| ==> rows[i] == db.components[i];
    assert rows[|db.components|] == row;
  }

  lemma {:induction false} VehicleStep(sha: Sha, db: Database, tag: string, version: string, members: seq<int>, disabled: seq<int>)
    requires TellsPrefixes(sha, NewVehicle(tag, version, members, disabled))
    ensures AllComplete(sha, CreateVehicle(sha, db, tag, version, members, disabled).0)
            <==> AllComplete(sha, db) && Whole(sha, db, NewVehicle(tag, version, members, disabled))
  {
    if FindVehicle(db.vehicles, tag, VehicleKey(sha, members, disabled)).None? {
      var n := InsertableMembers(members, |db.components|);
      VehicleRowExact(sha, tag, version, members, disabled, n);
      StoresAllExact(members, |db.components|);
      AddedVehicle(sha, db, VehicleRowFor(sha, tag, version, members, disabled, n));
    }
  }

  lemma {:induction false} AddedVehicle(sha: Sha, db: Database, row: VehicleRow)
    ensures AllComplete(sha, db.(vehicles := db.vehicles + [row])) <==> AllComplete(sha, db) && VehicleComplete(sha, row)
  {
    var rows := db.vehicles + [row];
    assert forall i :: 0 <= i < |db.vehicles| ==> rows[i] == db.vehicles[i];
    assert rows[|db.vehicles|] == row;
  }

  lemma {:induction false} RequestExact(sha: Sha, db: Database, r: Request)
    requires TellsPrefixes(sha, r)
    ensures AllComplete(sha, Handle(sha, db, r).0) <==> AllComplete(sha, db) && Whole(sha, db, r)
  {
    match r
    case NewComponent(path, kind, version, parts) => ComponentStep(sha, db, path, kind, version, parts);
    case NewVehicle(tag, version, members, disabled) => VehicleStep(sha, db, tag, version, members, disabled);
    case SetTarget(target, vehicle) =>
      assert Handle(sha, db, r).0.components == db.components && Handle(sha, db, r).0.vehicles == db.vehicles;
  }

  /** Every stored release has the content its identity stands for exactly when every request of the run was whole. */
  lemma {:induction false} WholeRunsExact(sha: Sha, requests: seq<Request>)
    requires forall k :: 0 <= k < |requests| ==> TellsPrefixes(sha, requests[k])
    ensures AllComplete(sha, Run(sha, EMPTY, requests)) <==> WholeRun(sha, requests)
  {
    if requests != [] {
      WholeRunsExact(sha, requests[..|requests| - 1]);
      RequestExact(sha, Run(sha, EMPTY, requests[..|requests| - 1]), requests[|requests| - 1]);
    }
  }

  // --- reuse after whole runs ------------------------------------------------

  /** After a whole run, a reused component release has the requested kind and parts. */
  lemma {:induction false} WholeRunReuse(sha: Sha, requests: seq<Request>, path: string, kind: string, version: string, parts: seq<Part>, id: int)
    requires (forall k :: 0 <= k < |requests| ==> TellsPrefixes(sha, requests[k])) && WholeRun(sha, requests)
    requires CreateComponent(sha, Run(sha, EMPTY, requests), path, kind, version, parts).1 == Reused(id)
    requires DistinctIds(parts) && NulFree(parts) && '\n' !in kind
    ensures var rows := Run(sha, EMPTY, requests).components;
            && 0 <= id < |rows| && ReadParts(rows[id].parts).Some?
            && var held := ReadParts(rows[id].parts).value;
               NulFree(held) && '\n' !in rows[id].kind && Separates(sha, ComponentPreimage(kind, parts), ComponentPreimage(rows[id].kind, held)) ==>
                 rows[id].path == path && rows[id].kind == kind && multiset(held) == multiset(parts)
  {
    var db := Run(sha, EMPTY, requests);
    WholeRunsExact(sha, requests);
    FindComponentExact(db.components, path, ComponentKey(sha, kind, parts));
    var held := CompleteParts(sha, db, id);
    if NulFree(held) && '\n' !in db.components[id].kind && Separates(sha, ComponentPreimage(kind, parts), ComponentPreimage(db.components[id].kind, held)) {
      ReusedHasContent(sha, db, path, kind, version, parts, id, held);
    }
  }

  lemma {:induction false} CompleteParts(sha: Sha, db: Database, id: int) returns (held: seq<Part>)
    requires AllComplete(sha, db) && 0 <= id < |db.components|
    ensures HoldsAll(sha, db.components[id], held) && ReadParts(db.components[id].parts) == Some(held)
  {
    assert Complete(sha, db.components[id]);
    held :| HoldsAll(sha, db.components[id], held);
    ReadBack(held);
  }

  // --- reuse after any run of plain requests ---------------------------------

  /** No separator character where it could be mistaken for one. */
  ghost predicate PlainRequest(r: Request)
  {
    r.NewComponent? ==> NulFree(r.parts) && '\n' !in r.kind
  }

  /** The row a cut of this request leaves, complete or not. */
  ghost predicate RowOf(sha: Sha, r: Request, row: ComponentRow)
  {
    && r.NewComponent?
    && row == ComponentRow(r.path, r.kind, r.version, ComponentKey(sha, r.kind, r.parts), PartRows(r.parts[..InsertableParts(r.parts)]))
  }

  ghost predicate RowFrom(sha: Sha, requests: seq<Request>, row: ComponentRow)
  {
    exists r :: r in requests && RowOf(sha, r, row)
  }

  ghost predicate RowsFrom(sha: Sha, requests: seq<Request>, rows: seq<ComponentRow>)
  {
    forall i :: 0 <= i < |rows| ==> RowFrom(sha, requests, rows[i])
  }

  lemma {:induction false} MoreRequests(sha: Sha, requests: seq<Request>, rows: seq<ComponentRow>)
    requires requests != [] && RowsFrom(sha, requests[..|requests| - 1], rows)
    ensures RowsFrom(sha, requests, rows)
  {
    var init := requests[..|requests| - 1];
    forall i | 0 <= i < |rows| ensures RowFrom(sha, requests, rows[i]) {
      assert RowFrom(sha, init, rows[i]);
      var r :| r in init && RowOf(sha, r, rows[i]);
      SnocMember(requests, r);
    }
  }

  lemma {:induction false} NewRowFrom(sha: Sha, db: Database, r: Request)
    ensures var rows := Handle(sha, db, r).0.components;
            rows == db.components || exists row :: rows == db.components + [row] && RowOf(sha, r, row)
  {
    if r.NewComponent? {
      var row := ComponentRow(r.path, r.kind, r.version, ComponentKey(sha, r.kind, r.parts), PartRows(r.parts[..InsertableParts(r.parts)]));
      assert RowOf(sha, r, row);
    }
  }

  /** Every stored component row is some request's cut. */
  lemma {:induction false} RunRowsFrom(sha: Sha, requests: seq<Request>)
    ensures RowsFrom(sha, requests, Run(sha, EMPTY, requests).components)
  {
    if requests != [] {
      var n := |requests| - 1;
      RunRowsFrom(sha, requests[..n]);
      StepRowsFrom(sha, Run(sha, EMPTY, requests[..n]), requests);
    }
  }

  lemma {:induction false} StepRowsFrom(sha: Sha, db: Database, requests: seq<Request>)
    requires requests != [] && RowsFrom(sha, requests[..|requests| - 1], db.components)
    ensures RowsFrom(sha, requests, Handle(sha, db, requests[|requests| - 1]).0.components)
  {
    var last := requests[|requests| - 1];
    MoreRequests(sha, requests, db.components);
    NewRowFrom(sha, db, last);
    var rows := Handle(sha, db, last).0.components;
    if rows != db.components {
      var row :| rows == db.components + [row] && RowOf(sha, last, row);
      assert last in requests;
      assert RowFrom(sha, requests, row);
    }
  }

  lemma {:induction false} SameByIdDistinct(a: seq<Part>, b: seq<Part>)
    requires DistinctIds(a) && SameById(a, b)
    ensures DistinctIds(b) && multiset(a) == multiset(b)
  {
    forall p ensures multiset(a)[p] == multiset(b)[p] {
      CountWithId(a, p.id, p);
      CountWithId(b, p.id, p);
      assert WithId(a, p.id) == WithId(b, p.id);
    }
    forall i, j | 0 <= i < j < |b| ensures b[i].id != b[j].id {
      OneWithId(a, b[i].id);
      assert WithId(a, b[i].id) == WithId(b, b[i].id);
      if b[i].id == b[j].id {
        TwoWithId(b, i, j);
      }
    }
  }

  lemma {:induction false} TwoWithId(parts: seq<Part>, i: nat, j: nat)
    requires i < j < |parts| && parts[i].id == parts[j].id
    ensures |WithId(parts, parts[i].id)| >= 2
  {
    var id := parts[i].id;
    assert parts == parts[..i] + [parts[i]] + parts[i + 1..j] + [parts[j]] + parts[j + 1..];
    WithIdAppend(parts[..i] + [parts[i]] + parts[i + 1..j] + [parts[j]], parts[j + 1..], id);
    WithIdAppend(parts[..i] + [parts[i]] + parts[i + 1..j], [parts[j]], id);
    WithIdAppend(parts[..i] + [parts[i]], parts[i + 1..j], id);
    WithIdAppend(parts[..i], [parts[i]], id);
  }

  lemma {:induction false} OneWithId(parts: seq<Part>, id: string)
    requires DistinctIds(parts)
    ensures |WithId(parts, id)| <= 1
  {
    if parts != [] {
      if parts[0].id == id {
        NoneWithId(parts[1..], id);
      } else {
        OneWithId(parts[1..], id);
      }
    }
  }

  /** The hash tells this request's string from those of the run's own requests. */
  ghost predicate TellsApart(sha: Sha, requests: seq<Request>, kind: string, parts: seq<Part>)
  {
    forall k :: 0 <= k < |requests| && requests[k].NewComponent? ==>
      Separates(sha, ComponentPreimage(kind, parts), ComponentPreimage(requests[k].kind, requests[k].parts))
  }

  /**
   Other callers' failed creates do no harm: among requests without separator characters, one with
   distinct ids that is answered with an existing release always gets its own kind and parts. A row
   cut short carries the string of a request that repeats an id, and no other request has that string.
   */
  lemma {:induction false} PlainReuse(sha: Sha, requests: seq<Request>, path: string, kind: string, version: string, parts: seq<Part>, id: int)
    requires forall k :: 0 <= k < |requests| ==> PlainRequest(requests[k])
    requires DistinctIds(parts) && NulFree(parts) && '\n' !in kind && TellsApart(sha, requests, kind, parts)
    requires CreateComponent(sha, Run(sha, EMPTY, requests), path, kind, version, parts).1 == Reused(id)
    ensures var rows := Run(sha, EMPTY, requests).components;
            && 0 <= id < |rows| && rows[id].path == path && rows[id].kind == kind
            && ReadParts(rows[id].parts).Some? && multiset(ReadParts(rows[id].parts).value) == multiset(parts)
  {
    var rows := Run(sha, EMPTY, requests).components;
    FindComponentExact(rows, path, ComponentKey(sha, kind, parts));
    RunRowsFrom(sha, requests);
    assert RowFrom(sha, requests, rows[id]);
    var r :| r in requests && RowOf(sha, r, rows[id]);
    var k :| 0 <= k < |requests| && requests[k] == r;
    assert PlainRequest(requests[k]);
    SameStringSameRow(sha, r, rows[id], kind, parts);
  }

  lemma {:induction false} SameStringSameRow(sha: Sha, r: Request, row: ComponentRow, kind: string, parts: seq<Part>)
    requires RowOf(sha, r, row) && PlainRequest(r) && row.identity == ComponentKey(sha, kind, parts)
    requires DistinctIds(parts) && NulFree(parts) && '\n' !in kind
    requires Separates(sha, ComponentPreimage(kind, parts), ComponentPreimage(r.kind, r.parts))
    ensures row.kind == kind && ReadParts(row.parts).Some? && multiset(ReadParts(row.parts).value) == multiset(parts)
  {
    PrintInjective(sha(ComponentPreimage(kind, parts)), sha(ComponentPreimage(r.kind, r.parts)));
    ComponentRowsExact(kind, parts, r.kind, r.parts);
    SameByIdDistinct(parts, r.parts);
    InsertableExact(r.parts);
    assert r.parts[..|r.parts|] == r.parts;
    ReadBack(r.parts);
  }

  // --- a truncated row is for ever -------------------------------------------

  lemma {:induction false} FindVehicleStable(rows: seq<VehicleRow>, later: seq<VehicleRow>, tag: string, identity: string)
    requires rows <= later && FindVehicle(rows, tag, identity).Some?
    ensures FindVehicle(later, tag, identity) == FindVehicle(rows, tag, identity)
    decreases |later|
  {
    if |later| > |rows| {
      FindVehicleStable(rows, later[..|later| - 1], tag, identity);
    } else {
      assert later == rows;
    }
  }

  lemma {:induction false} FindComponentStable(rows: seq<ComponentRow>, later: seq<ComponentRow>, path: string, identity: string)
    requires rows <= later && FindComponent(rows, path, identity).Some?
    ensures FindComponent(later, path, identity) == FindComponent(rows, path, identity)
    decreases |later|
  {
    if |later| > |rows| {
      FindComponentStable(rows, later[..|later| - 1], path, identity);
    } else {
      assert later == rows;
    }
  }

  lemma {:induction false} StillReused(db: Database, later: Database, tag: string, version: string, identity: string, members: seq<int>, disabled: seq<int>, id: int)
    requires db.vehicles <= later.vehicles && CutVehicle(db, tag, version, identity, members, disabled) == (db, Reused(id))
    ensures CutVehicle(later, tag, version, identity, members, disabled) == (later, Reused(id))
  {
    FindVehicleStable(db.vehicles, later.vehicles, tag, identity);
  }

  /**
   Whatever is requested after a vehicle release failed, its missing members included, the same
   request is answered with the truncated row ever after.
   */
  lemma {:induction false} TruncatedForever(sha: Sha, db: Database, failed: Database, after: seq<Request>, tag: string, version: string,
                                            members: seq<int>, disabled: seq<int>)
    requires Inv(sha, db) && CreateVehicle(sha, db, tag, version, members, disabled) == (failed, DbError)
    ensures var later := Run(sha, failed, after);
            CreateVehicle(sha, later, tag, version, members, disabled) == (later, Reused(|db.vehicles|))
  {
    var identity := VehicleKey(sha, members, disabled);
    RetryReusesTruncatedVehicle(sha, db, failed, tag, version, members, disabled);
    CutVehicleKeeps(sha, db, tag, version, identity, members, disabled);
    RunKeeps(sha, failed, after);
    StillReused(failed, Run(sha, failed, after), tag, version, identity, members, disabled, |db.vehicles|);
  }

  // --- two runs that show it -------------------------------------------------

  lemma {:induction false} RunSnoc(sha: Sha, db: Database, requests: seq<Request>, r: Request)
    ensures Run(sha, db, requests + [r]) == Handle(sha, Run(sha, db, requests), r).0
  {
    assert (requests + [r])[..|requests|] == requests;
  }

  lemma {:induction false} CutNew(db: Database, path: string, kind: string, version: string, identity: string)
    requires FindComponent(db.components, path, identity).None?
    ensures CutComponent(db, path, kind, version, identity, []) == (db.(components := db.components + [ComponentRow(path, kind, version, identity, [])]), Created(|db.components|))
  {
    InsertableExact([]);
    assert PartRows([]) == [];
  }

  /** The bare component releases of the runs below. */
  function BareRow(sha: Sha, path: string, kind: string, version: string): ComponentRow
  {
    ComponentRow(path, kind, version, ComponentKey(sha, kind, []), [])
  }

  lemma {:induction false} OneBare(sha: Sha, path: string, kind: string, version: string)
    ensures Run(sha, EMPTY, [NewComponent(path, kind, version, [])]) == EMPTY.(components := [BareRow(sha, path, kind, version)])
  {
    var r := NewComponent(path, kind, version, []);
    RunSnoc(sha, EMPTY, [], r);
    assert [] + [r] == [r];
    CutNew(EMPTY, path, kind, version, ComponentKey(sha, kind, []));
    assert EMPTY.components + [BareRow(sha, path, kind, version)] == [BareRow(sha, path, kind, version)];
  }

  /** One component, then a vehicle release of it and of one that does not exist: refused, and on retry handed out with one member. */
  lemma {:induction false} MissingMemberRun(sha: Sha, path: string, kind: string, version: string, tag: string, missing: int)
    requires missing != 0
    ensures var db := Run(sha, EMPTY, [NewComponent(path, kind, version, [])]);
            var (later, first) := CreateVehicle(sha, db, tag, version, [0, missing], []);
            && first == DbError
            && CreateVehicle(sha, later, tag, version, [0, missing], []) == (later, Reused(0))
            && |later.vehicles| == 1 && later.vehicles[0].members == [MemberRow(0, false)]
  {
    OneBare(sha, path, kind, version);
    var db := Run(sha, EMPTY, [NewComponent(path, kind, version, [])]);
    var members := [0, missing];
    VehicleCreationExact(sha, db, tag, version, members, []);
    MissingIsBad(missing);
    var later := CreateVehicle(sha, db, tag, version, members, []).0;
    RetryReusesTruncatedVehicle(sha, db, later, tag, version, members, []);
    FirstOnly(missing);
    FailedVehicleLeaves(sha, db, later, tag, version, members, []);
  }

  /** And once the missing member has been created, the request, now valid, is still answered with the one-member release. */
  lemma {:induction false} LateMemberRun(sha: Sha, path: string, kind: string, version: string, tag: string, late: Request)
    requires late.NewComponent? && Handle(sha, Run(sha, EMPTY, [NewComponent(path, kind, version, [])]), late).1.Created?
    ensures var db := Run(sha, EMPTY, [NewComponent(path, kind, version, [])]);
            var failed := CreateVehicle(sha, db, tag, version, [0, 1], []).0;
            var later := Run(sha, failed, [late]);
            && GoodMembers([0, 1], |later.components|)
            && CreateVehicle(sha, later, tag, version, [0, 1], []) == (later, Reused(0))
            && later.vehicles == failed.vehicles && later.vehicles[0].members == [MemberRow(0, false)]
  {
    var db := Run(sha, EMPTY, [NewComponent(path, kind, version, [])]);
    MissingMemberRun(sha, path, kind, version, tag, 1);
    OneBare(sha, path, kind, version);
    ReachableSound(sha, [NewComponent(path, kind, version, [])]);
    var failed := CreateVehicle(sha, db, tag, version, [0, 1], []).0;
    TruncatedForever(sha, db, failed, [late], tag, version, [0, 1], []);
    LeavesComponents(sha, db, tag, version, [0, 1], []);
    NowValid(sha, db, failed, late);
  }

  lemma {:induction false} NowValid(sha: Sha, db: Database, failed: Database, late: Request)
    requires |db.components| == 1 && late.NewComponent? && Handle(sha, db, late).1.Created? && failed.components == db.components
    ensures GoodMembers([0, 1], |Run(sha, failed, [late]).components|) && Run(sha, failed, [late]).vehicles == failed.vehicles
  {
    RunSnoc(sha, failed, [], late);
    assert [] + [late] == [late];
    LateMember(sha, db, failed, late);
  }

  lemma {:induction false} LeavesComponents(sha: Sha, db: Database, tag: string, version: string, members: seq<int>, disabled: seq<int>)
    ensures CreateVehicle(sha, db, tag, version, members, disabled).0.components == db.components
  {
  }

  lemma {:induction false} LateMember(sha: Sha, db: Database, failed: Database, late: Request)
    requires late.NewComponent? && Handle(sha, db, late).1.Created? && failed.components == db.components
    ensures var later := Handle(sha, failed, late).0;
            |later.components| == |db.components| + 1 && later.vehicles == failed.vehicles
  {
  }

  lemma {:induction false} FirstOnly(missing: int)
    requires missing != 0
    ensures InsertableMembers([0, missing], 1) == 1 && MemberRows([0, missing][..1], []) == [MemberRow(0, false)]
  {
    var members := [0, missing];
    assert members[..1] == [0];
    GoodFits(members, 1, 1);
    InsertableMembersExact(members, 1);
    MissingIsBad(missing);
  }

  lemma {:induction false} MissingIsBad(missing: int)
    requires missing != 0
    ensures !GoodMembers([0, missing], 1)
  {
    assert [0, missing][1] == missing;
  }

  lemma {:induction false} BareKeysDiffer(sha: Sha, kindA: string, kindB: string)
    requires kindA != kindB && Separates(sha, ComponentPreimage(kindA, []), ComponentPreimage(kindB, []))
    ensures ComponentKey(sha, kindA, []) != ComponentKey(sha, kindB, [])
  {
    if ComponentKey(sha, kindA, []) == ComponentKey(sha, kindB, []) {
      PrintInjective(sha(ComponentPreimage(kindA, [])), sha(ComponentPreimage(kindB, [])));
      EmptySide(kindA, kindB, []);
    }
  }

  lemma {:induction false} TwoBare(sha: Sha, path: string, kindA: string, kindB: string, version: string)
    requires kindA != kindB && Separates(sha, ComponentPreimage(kindA, []), ComponentPreimage(kindB, []))
    ensures Run(sha, EMPTY, [NewComponent(path, kindA, version, []), NewComponent(path, kindB, version, [])])
         == EMPTY.(components := [BareRow(sha, path, kindA, version), BareRow(sha, path, kindB, version)])
  {
    var a, b := BareRow(sha, path, kindA, version), BareRow(sha, path, kindB, version);
    var first, second := NewComponent(path, kindA, version, []), NewComponent(path, kindB, version, []);
    OneBare(sha, path, kindA, version);
    RunSnoc(sha, EMPTY, [first], second);
    assert [first] + [second] == [first, second];
    BareKeysDiffer(sha, kindA, kindB);
    FindComponentExact([a], path, b.identity);
    CutNew(EMPTY.(components := [a]), path, kindB, version, b.identity);
    assert [a] + [b] == [a, b];
  }

  /**
   Two releases of one path in both orders: the second request is answered with the first one's
   release, which resolves to another tree than the request describes.
   */
  lemma {:induction false} SharedPathRun(sha: Sha, path: string, kindA: string, kindB: string, version: string, tag: string)
    requires kindA != kindB && Separates(sha, ComponentPreimage(kindA, []), ComponentPreimage(kindB, []))
    ensures var db := Run(sha, EMPTY, [NewComponent(path, kindA, version, []), NewComponent(path, kindB, version, [])]);
            var (later, first) := CreateVehicle(sha, db, tag, version, [0, 1], []);
            && first == Created(0)
            && CreateVehicle(sha, later, tag, version, [1, 0], []) == (later, Reused(0))
            && Resolve(later, 0) != ResolveMembers(later.components, MemberRows([1, 0], []))
  {
    TwoBare(sha, path, kindA, kindB, version);
    var a, b := BareRow(sha, path, kindA, version), BareRow(sha, path, kindB, version);
    SharedPathFrom(sha, EMPTY.(components := [a, b]), tag, version);
  }

  lemma {:induction false} SharedPathFrom(sha: Sha, db: Database, tag: string, version: string)
    requires db.vehicles == [] && |db.components| == 2
    requires db.components[0].path == db.components[1].path && db.components[0].kind != db.components[1].kind
    requires db.components[0].parts == [] && db.components[1].parts == []
    ensures var (later, first) := CreateVehicle(sha, db, tag, version, [0, 1], []);
            && first == Created(0)
            && CreateVehicle(sha, later, tag, version, [1, 0], []) == (later, Reused(0))
            && Resolve(later, 0) != ResolveMembers(later.components, MemberRows([1, 0], []))
  {
    VehicleCreationExact(sha, db, tag, version, [0, 1], []);
    SwapIsNoNews(sha);
    SwappedReused(sha, db, CreateVehicle(sha, db, tag, version, [0, 1], []).0, tag, version);
    OrderShows(db.components);
  }

  lemma {:induction false} SwapIsNoNews(sha: Sha)
    ensures VehicleKey(sha, [1, 0], []) == VehicleKey(sha, [0, 1], [])
  {
    SameIdentity([0, 1], [], 0);
    assert ToEnd([0, 1], 0) == [1, 0];
  }

  lemma {:induction false} SwappedReused(sha: Sha, db: Database, later: Database, tag: string, version: string)
    requires db.vehicles == [] && VehicleKey(sha, [1, 0], []) == VehicleKey(sha, [0, 1], [])
    requires later.vehicles == [VehicleRow(tag, version, VehicleKey(sha, [0, 1], []), MemberRows([0, 1], []))]
    ensures CreateVehicle(sha, later, tag, version, [1, 0], []) == (later, Reused(0))
  {
    var row := VehicleRow(tag, version, VehicleKey(sha, [0, 1], []), MemberRows([0, 1], []));
    assert [] + [row] == [row];
    FindNewVehicle([], row);
  }

  lemma {:induction false} OrderShows(components: seq<ComponentRow>)
    requires |components| == 2 && components[0].path == components[1].path && components[0].kind != components[1].kind
    requires components[0].parts == [] && components[1].parts == []
    ensures ResolveMembers(components, MemberRows([0, 1], [])) != ResolveMembers(components, MemberRows([1, 0], []))
  {
    LastWins(components, MemberRows([0, 1], []));
    LastWins(components, MemberRows([1, 0], []));
  }

  lemma {:induction false} LastWins(components: seq<ComponentRow>, members: seq<MemberRow>)
    requires |members| == 2 && forall i :: 0 <= i < 2 ==> 0 <= members[i].component < |components| && components[members[i].component].parts == []
    ensures var row := components[members[1].component];
            var t := ResolveMembers(components, members);
            t.Some? && row.path in t.value.entities && t.value.entities[row.path].kind == row.kind
  {
    var init := members[..1];
    assert init[..0] == [];
    assert ResolveMembers(components, init).Some?;
  }
}
