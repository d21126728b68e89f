/**
 What the content identities buy: a created release holds exactly what was asked for, a reused one
 holds what a fresh one would, and no content is stored twice. SHA-256 is any function; where a
 statement needs it not to collide, it says so of the two strings concerned.
 */
module ReleaseReuse {
  import opened Collections
  import opened ContentHashes
  import opened Wire
  import opened WireTheorems
  import opened Canonical
  import opened Identities
  import opened ReleaseStore
  import opened ReleaseTheorems

  // --- component releases ----------------------------------------------------

  /** The row holds these parts and its identity is theirs. */
  ghost predicate HoldsAll(sha: Sha, row: ComponentRow, parts: seq<Part>)
  {
    DistinctIds(parts) && row.parts == PartRows(parts) && row.identity == ComponentKey(sha, row.kind, parts)
  }

  ghost predicate Complete(sha: Sha, row: ComponentRow)
  {
    exists parts :: HoldsAll(sha, row, parts)
  }

  lemma {:induction false} InsertableExact(parts: seq<Part>)
    ensures InsertableParts(parts) == |parts| <==> DistinctIds(parts)
  {
    assert parts[..|parts|] == parts;
  }

  /**
   A new release is created exactly when the path has no release of this identity and no part id
   repeats; it then holds the request. A repeated id is an error that leaves a strict prefix behind.
   */
  lemma {:induction false} ComponentCreationExact(sha: Sha, db: Database, path: string, kind: string, version: string, parts: seq<Part>)
    ensures var (later, reply) := CreateComponent(sha, db, path, kind, version, parts);
            var identity := ComponentKey(sha, kind, parts);
            var known := exists i :: 0 <= i < |db.components| && db.components[i].path == path && db.components[i].identity == identity;
            && (reply.Reused? <==> known)
            && (reply.Created? <==> !known && DistinctIds(parts))
            && (reply.DbError? <==> !known && !DistinctIds(parts))
            && (reply.Reused? ==> later == db && 0 <= reply.id < |db.components|
                                  && db.components[reply.id].path == path && db.components[reply.id].identity == identity)
            && (!known ==> exists n: nat :: n <= |parts| && (n == |parts| <==> DistinctIds(parts))
                                            && later == db.(components := db.components + [ComponentRow(path, kind, version, identity, PartRows(parts[..n]))]))
            && (reply.Created? ==> reply.id == |db.components|)
  {
    FindComponentExact(db.components, path, ComponentKey(sha, kind, parts));
    InsertableExact(parts);
  }

  /** A created release reads back as the requested parts. */
  lemma {:induction false} CreatedReadsBack(sha: Sha, db: Database, path: string, kind: string, version: string, parts: seq<Part>)
    requires CreateComponent(sha, db, path, kind, version, parts).1.Created?
    ensures var (later, reply) := CreateComponent(sha, db, path, kind, version, parts);
            && 0 <= reply.id < |later.components|
            && HoldsAll(sha, later.components[reply.id], parts)
            && ReadParts(later.components[reply.id].parts) == Some(parts)
  {
    InsertableExact(parts);
    assert parts[..|parts|] == parts;
    ReadBack(parts);
  }

  lemma {:induction false} PartRowsInjective(a: seq<Part>, b: seq<Part>)
    requires PartRows(a) == PartRows(b)
    ensures a == b
  {
    ReadBack(a);
    ReadBack(b);
  }

  /** Reusing a complete release gives the requested content, up to the order of its parts. */
  lemma {:induction false} ReusedHasContent(sha: Sha, db: Database, path: string, kind: string, version: string, parts: seq<Part>, id: int, held: seq<Part>)
    requires CreateComponent(sha, db, path, kind, version, parts).1 == Reused(id) && 0 <= id < |db.components|
    requires HoldsAll(sha, db.components[id], held) && DistinctIds(parts)
    requires NulFree(held) && NulFree(parts) && '\n' !in kind && '\n' !in db.components[id].kind
    requires Separates(sha, ComponentPreimage(kind, parts), ComponentPreimage(db.components[id].kind, held))
    ensures db.components[id].path == path && db.components[id].kind == kind && multiset(held) == multiset(parts)
  {
    FindComponentExact(db.components, path, ComponentKey(sha, kind, parts));
    PrintInjective(sha(ComponentPreimage(kind, parts)), sha(ComponentPreimage(db.components[id].kind, held)));
    ComponentIdentityExact(kind, parts, db.components[id].kind, held);
  }

  /** At most one complete release per path and content, in whatever order the parts came. */
  lemma {:induction false} OneReleasePerContent(sha: Sha, requests: seq<Request>, i: int, j: int, a: seq<Part>, b: seq<Part>)
    requires var rows := Run(sha, EMPTY, requests).components;
             && 0 <= i < |rows| && 0 <= j < |rows|
             && HoldsAll(sha, rows[i], a) && HoldsAll(sha, rows[j], b)
             && rows[i].path == rows[j].path && rows[i].kind == rows[j].kind
    requires multiset(a) == multiset(b)
    ensures i == j
  {
    var db := Run(sha, EMPTY, requests);
    ReachableSound(sha, requests);
    SortCanonical(a, b);
    assert ComponentKey(sha, db.components[i].kind, a) == ComponentKey(sha, db.components[j].kind, b);
    SameRow(db.components, i, j);
  }

  lemma {:induction false} SameRow(rows: seq<ComponentRow>, i: int, j: int)
    requires ComponentsSound(rows) && 0 <= i < |rows| && 0 <= j < |rows|
    requires rows[i].path == rows[j].path && rows[i].identity == rows[j].identity
    ensures i == j
  {
  }

  lemma {:induction false} FindNew(rows: seq<ComponentRow>, row: ComponentRow)
    requires FindComponent(rows, row.path, row.identity).None?
    ensures FindComponent(rows + [row], row.path, row.identity) == Some(|rows|)
  {
    assert (rows + [row])[..|rows|] == rows;
  }

  /** An error means the release is new, some part was refused, and the row has the parts before it. */
  lemma {:induction false} ErrorLeaves(db: Database, later: Database, path: string, kind: string, version: string, identity: string, parts: seq<Part>)
    requires CutComponent(db, path, kind, version, identity, parts) == (later, DbError)
    ensures InsertableParts(parts) < |parts| && FindComponent(db.components, path, identity).None?
    ensures later == db.(components := db.components + [ComponentRow(path, kind, version, identity, PartRows(parts[..InsertableParts(parts)]))])
  {
  }

  lemma {:induction false} KnownAfter(db: Database, later: Database, row: ComponentRow, kind: string, version: string, parts: seq<Part>)
    requires later.components == db.components + [row] && FindComponent(db.components, row.path, row.identity).None?
    ensures CutComponent(later, row.path, kind, version, row.identity, parts) == (later, Reused(|db.components|))
  {
    FindNew(db.components, row);
  }

  lemma {:induction false} RetryAt(db: Database, later: Database, path: string, kind: string, version: string, identity: string, parts: seq<Part>)
    requires CutComponent(db, path, kind, version, identity, parts) == (later, DbError)
    ensures CutComponent(later, path, kind, version, identity, parts) == (later, Reused(|db.components|))
  {
    ErrorLeaves(db, later, path, kind, version, identity, parts);
    KnownAfter(db, later, ComponentRow(path, kind, version, identity, PartRows(parts[..InsertableParts(parts)])), kind, version, parts);
  }

  /** A failed create is not undone: a new row holds the parts before the first repeated id, and no more. */
  lemma {:induction false} FailedCreateLeaves(sha: Sha, db: Database, later: Database, path: string, kind: string, version: string, parts: seq<Part>)
    requires CreateComponent(sha, db, path, kind, version, parts) == (later, DbError)
    ensures InsertableParts(parts) < |parts|
    ensures later == db.(components := db.components
                           + [ComponentRow(path, kind, version, ComponentKey(sha, kind, parts), PartRows(parts[..InsertableParts(parts)]))])
  {
    ErrorLeaves(db, later, path, kind, version, ComponentKey(sha, kind, parts), parts);
  }

  /** And the same request, sent again, is answered with that row. */
  lemma {:induction false} RetryReusesTruncated(sha: Sha, db: Database, later: Database, path: string, kind: string, version: string, parts: seq<Part>)
    requires CreateComponent(sha, db, path, kind, version, parts) == (later, DbError)
    ensures CreateComponent(sha, later, path, kind, version, parts) == (later, Reused(|db.components|))
  {
    RetryAt(db, later, path, kind, version, ComponentKey(sha, kind, parts), parts);
  }

  // --- vehicle releases ------------------------------------------------------

  lemma {:induction false} InsertableMembersExact(members: seq<int>, components: nat)
    ensures InsertableMembers(members, components) == |members| <==> GoodMembers(members, components)
  {
    assert members[..|members|] == members;
  }

  /**
   A vehicle release is created exactly when it is new for its tag and its members are distinct and
   exist. Otherwise, if it is new, a row with the members before the first refused one is left behind.
   */
  lemma {:induction false} VehicleCreationExact(sha: Sha, db: Database, tag: string, version: string, members: seq<int>, disabled: seq<int>)
    ensures var (later, reply) := CreateVehicle(sha, db, tag, version, members, disabled);
            var identity := VehicleKey(sha, members, disabled);
            var known := exists i :: 0 <= i < |db.vehicles| && db.vehicles[i].tag == tag && db.vehicles[i].identity == identity;
            && (reply.Reused? <==> known)
            && (reply.Created? <==> !known && GoodMembers(members, |db.components|))
            && (reply.DbError? <==> !known && !GoodMembers(members, |db.components|))
            && (reply.Reused? ==> later == db && 0 <= reply.id < |db.vehicles|
                                  && db.vehicles[reply.id].tag == tag && db.vehicles[reply.id].identity == identity)
            && (!known ==> exists n: nat :: n <= |members| && (n == |members| <==> GoodMembers(members, |db.components|))
                                            && later == db.(vehicles := db.vehicles + [VehicleRow(tag, version, identity, MemberRows(members[..n], disabled))]))
            && (reply.Created? ==> reply.id == |db.vehicles|
                                   && later == db.(vehicles := db.vehicles + [VehicleRow(tag, version, identity, MemberRows(members, disabled))]))
  {
    FindVehicleExact(db.vehicles, tag, VehicleKey(sha, members, disabled));
    InsertableMembersExact(members, |db.components|);
    assert members[..|members|] == members;
  }

  lemma {:induction false} FindNewVehicle(rows: seq<VehicleRow>, row: VehicleRow)
    requires FindVehicle(rows, row.tag, row.identity).None?
    ensures FindVehicle(rows + [row], row.tag, row.identity) == Some(|rows|)
  {
    assert (rows + [row])[..|rows|] == rows;
  }

  lemma {:induction false} ErrorLeavesVehicle(db: Database, later: Database, tag: string, version: string, identity: string, members: seq<int>, disabled: seq<int>)
    requires CutVehicle(db, tag, version, identity, members, disabled) == (later, DbError)
    ensures InsertableMembers(members, |db.components|) < |members| && FindVehicle(db.vehicles, tag, identity).None?
    ensures later == db.(vehicles := db.vehicles
                           + [VehicleRow(tag, version, identity, MemberRows(members[..InsertableMembers(members, |db.components|)], disabled))])
  {
  }

  lemma {:induction false} VehicleKnownAfter(db: Database, later: Database, row: VehicleRow, version: string, members: seq<int>, disabled: seq<int>)
    requires later.vehicles == db.vehicles + [row] && FindVehicle(db.vehicles, row.tag, row.identity).None?
    ensures CutVehicle(later, row.tag, version, row.identity, members, disabled) == (later, Reused(|db.vehicles|))
  {
    FindNewVehicle(db.vehicles, row);
  }

  lemma {:induction false} VehicleRetryAt(db: Database, later: Database, tag: string, version: string, identity: string, members: seq<int>, disabled: seq<int>)
    requires CutVehicle(db, tag, version, identity, members, disabled) == (later, DbError)
    ensures CutVehicle(later, tag, version, identity, members, disabled) == (later, Reused(|db.vehicles|))
  {
    ErrorLeavesVehicle(db, later, tag, version, identity, members, disabled);
    VehicleKnownAfter(db, later, VehicleRow(tag, version, identity, MemberRows(members[..InsertableMembers(members, |db.components|)], disabled)), version, members, disabled);
  }

  /** A failed create of a vehicle release is not undone either: a new row has the members before the first refused one. */
  lemma {:induction false} FailedVehicleLeaves(sha: Sha, db: Database, later: Database, tag: string, version: string, members: seq<int>, disabled: seq<int>)
    requires CreateVehicle(sha, db, tag, version, members, disabled) == (later, DbError)
    ensures InsertableMembers(members, |db.components|) < |members|
    ensures later == db.(vehicles := db.vehicles
                           + [VehicleRow(tag, version, VehicleKey(sha, members, disabled), MemberRows(members[..InsertableMembers(members, |db.components|)], disabled))])
  {
    ErrorLeavesVehicle(db, later, tag, version, VehicleKey(sha, members, disabled), members, disabled);
  }

  /** And the same request, sent again, is answered with that row. */
  lemma {:induction false} RetryReusesTruncatedVehicle(sha: Sha, db: Database, later: Database, tag: string, version: string, members: seq<int>, disabled: seq<int>)
    requires CreateVehicle(sha, db, tag, version, members, disabled) == (later, DbError)
    ensures CreateVehicle(sha, later, tag, version, members, disabled) == (later, Reused(|db.vehicles|))
  {
    VehicleRetryAt(db, later, tag, version, VehicleKey(sha, members, disabled), members, disabled);
  }

  /** Truncated or not, a release that is pointed at serves the tree of the rows it has. */
  lemma {:induction false} TargetServesRows(sha: Sha, db: Database, s: Selector, vehicle: int)
    requires Inv(sha, db) && 0 <= vehicle < |db.vehicles|
    ensures var t := ResolveMembers(db.components, db.vehicles[vehicle].members);
            t.Some? && PointTarget(sha, db, s, vehicle).1 == TargetSet(TreeKey(sha, t.value))
  {
    ResolveTotal(sha, db, vehicle);
    ServesResolved(sha, db, s, vehicle);
  }

  lemma {:induction false} ServesResolved(sha: Sha, db: Database, s: Selector, vehicle: int)
    requires 0 <= vehicle < |db.vehicles| && Resolve(db, vehicle).Some?
    ensures PointTarget(sha, db, s, vehicle).1 == TargetSet(TreeKey(sha, Resolve(db, vehicle).value))
  {
  }

  // --- what a vehicle release resolves to ------------------------------------

  /** Every member is an existing component release. */
  ghost predicate Existing(components: seq<ComponentRow>, members: seq<MemberRow>)
  {
    forall m :: m in members ==> 0 <= m.component < |components|
  }

  /** A member's place in the tree: its path and the entity it stands for. */
  datatype Seat = Seat(path: string, entity: Entity)

  function SeatAt(components: seq<ComponentRow>, m: MemberRow): Option<Seat>
  {
    if !(0 <= m.component < |components|) then None
    else
      var row := components[m.component];
      match ReadParts(row.parts)
      case None => None
      case Some(parts) => Some(Seat(row.path, EntityFor(row, parts, m.disabled)))
  }

  ghost predicate SeatsOf(components: seq<ComponentRow>, members: seq<MemberRow>, seats: seq<Seat>)
  {
    |seats| == |members| && forall i :: 0 <= i < |members| ==> SeatAt(components, members[i]) == Some(seats[i])
  }

  /** Seats taken in order; a later one with the same path replaces an earlier one. */
  function Joined(seats: seq<Seat>): map<string, Entity>
  {
    if seats == [] then map[] else Joined(seats[..|seats| - 1])[seats[|seats| - 1].path := seats[|seats| - 1].entity]
  }

  lemma {:induction false} SeatsExist(components: seq<ComponentRow>, members: seq<MemberRow>) returns (seats: seq<Seat>)
    requires ComponentsSound(components) && Existing(components, members)
    ensures SeatsOf(components, members, seats)
  {
    forall i | 0 <= i < |members| ensures SeatAt(components, members[i]).Some? {
      assert members[i] in members;
      var parts := StoredParts(components[members[i].component].parts);
    }
    seats := seq(|members|, i requires 0 <= i < |members| && SeatAt(components, members[i]).Some? => SeatAt(components, members[i]).value);
  }

  lemma {:induction false} ResolveNext(components: seq<ComponentRow>, members: seq<MemberRow>, t: Tree, seat: Seat)
    requires members != [] && ResolveMembers(components, members[..|members| - 1]) == Some(t)
    requires SeatAt(components, members[|members| - 1]) == Some(seat)
    ensures ResolveMembers(components, members) == Some(Tree(t.entities[seat.path := seat.entity]))
  {
  }

  /** The resolved tree is the join of the members' seats. */
  lemma {:induction false} ResolveIsJoin(components: seq<ComponentRow>, members: seq<MemberRow>, seats: seq<Seat>)
    requires SeatsOf(components, members, seats)
    ensures ResolveMembers(components, members) == Some(Tree(Joined(seats)))
  {
    if members != [] {
      var n := |members| - 1;
      ResolveIsJoin(components, members[..n], seats[..n]);
      ResolveNext(components, members, Tree(Joined(seats[..n])), seats[n]);
    }
  }

  lemma {:induction false} JoinedPaths(seats: seq<Seat>, path: string)
    ensures path in Joined(seats) <==> exists i :: 0 <= i < |seats| && seats[i].path == path
  {
    if seats != [] {
      var n := |seats| - 1;
      JoinedPaths(seats[..n], path);
      assert forall i :: 0 <= i < n ==> seats[..n][i] == seats[i];
      assert seats[n].path == path ==> exists i :: 0 <= i < |seats| && seats[i].path == path;
    }
  }

  /** An entity is that of the last seat with its path. */
  lemma {:induction false} LastSpeaks(seats: seq<Seat>, path: string) returns (i: nat)
    requires path in Joined(seats)
    ensures i < |seats| && LastSeat(seats, i) && seats[i] == Seat(path, Joined(seats)[path])
  {
    var n := |seats| - 1;
    i := n;
    if seats[n].path != path {
      i := LastSpeaks(seats[..n], path);
      assert forall j :: i < j < n ==> seats[..n][j] == seats[j];
    }
  }

  ghost predicate LastSeat(seats: seq<Seat>, i: nat)
    requires i < |seats|
  {
    forall j :: i < j < |seats| ==> seats[j].path != seats[i].path
  }

  /** Seats that share a path are equal. */
  ghost predicate Agreeing(seats: seq<Seat>)
  {
    forall x, y :: x in seats && y in seats && x.path == y.path ==> x == y
  }

  lemma {:induction false} AgreeingSeat(seats: seq<Seat>, x: Seat)
    requires Agreeing(seats) && x in seats
    ensures x.path in Joined(seats) && Joined(seats)[x.path] == x.entity
  {
    JoinedPaths(seats, x.path);
    var i := LastSpeaks(seats, x.path);
    assert seats[i] in seats;
  }

  /** Agreeing seats join to one map however they are listed. */
  lemma {:induction false} JoinedUnordered(a: seq<Seat>, b: seq<Seat>)
    requires Agreeing(a) && forall x :: x in a <==> x in b
    ensures Joined(a) == Joined(b)
  {
    assert Agreeing(b);
    forall path ensures path in Joined(a) <==> path in Joined(b) {
      SameCover(a, b, path);
    }
    forall path | path in Joined(a) ensures Joined(a)[path] == Joined(b)[path] {
      var i := LastSpeaks(a, path);
      assert a[i] in b;
      AgreeingSeat(b, a[i]);
    }
  }

  lemma {:induction false} SameCover(a: seq<Seat>, b: seq<Seat>, path: string)
    requires forall x :: x in a <==> x in b
    ensures path in Joined(a) <==> path in Joined(b)
  {
    JoinedPaths(a, path);
    JoinedPaths(b, path);
    if i :| 0 <= i < |a| && a[i].path == path {
      assert a[i] in b;
    }
    if i :| 0 <= i < |b| && b[i].path == path {
      assert b[i] in a;
    }
  }

  /** The join shows this seat. */
  ghost predicate Shown(m: map<string, Entity>, x: Seat)
  {
    x.path in m && m[x.path] == x.entity
  }

  lemma {:induction false} ShownAgree(seats: seq<Seat>, m: map<string, Entity>)
    requires forall i :: 0 <= i < |seats| ==> Shown(m, seats[i])
    ensures Agreeing(seats)
  {
    forall x, y | x in seats && y in seats && x.path == y.path ensures x == y {
      var i :| 0 <= i < |seats| && seats[i] == x;
      var j :| 0 <= j < |seats| && seats[j] == y;
      assert Shown(m, seats[i]) && Shown(m, seats[j]);
    }
  }

  /** Members that share a path stand for equal entities. */
  ghost predicate SharersAgree(components: seq<ComponentRow>, members: seq<MemberRow>)
  {
    forall seats :: SeatsOf(components, members, seats) ==> Agreeing(seats)
  }

  lemma {:induction false} SeatsUnique(components: seq<ComponentRow>, members: seq<MemberRow>, a: seq<Seat>, b: seq<Seat>)
    requires SeatsOf(components, members, a) && SeatsOf(components, members, b)
    ensures a == b
  {
    forall i | 0 <= i < |a| ensures a[i] == b[i] {
      assert SeatAt(components, members[i]) == Some(a[i]);
    }
  }

  lemma {:induction false} SameSeats(components: seq<ComponentRow>, a: seq<MemberRow>, b: seq<MemberRow>, seatsA: seq<Seat>, seatsB: seq<Seat>)
    requires SeatsOf(components, a, seatsA) && SeatsOf(components, b, seatsB) && forall m :: m in a ==> m in b
    ensures forall x :: x in seatsA ==> x in seatsB
  {
    forall x | x in seatsA ensures x in seatsB {
      var i :| 0 <= i < |seatsA| && seatsA[i] == x;
      assert a[i] in b;
      var j :| 0 <= j < |b| && b[j] == a[i];
      assert seatsB[j] == x;
    }
  }

  /** When sharers agree, resolution reads members as a set. */
  lemma {:induction false} ResolveUnordered(components: seq<ComponentRow>, a: seq<MemberRow>, b: seq<MemberRow>)
    requires ComponentsSound(components) && Existing(components, a) && SharersAgree(components, a)
    requires forall m :: m in a <==> m in b
    ensures ResolveMembers(components, a).Some? && ResolveMembers(components, a) == ResolveMembers(components, b)
  {
    var seatsA := SeatsExist(components, a);
    var seatsB := SeatsExist(components, b);
    ResolveIsJoin(components, a, seatsA);
    ResolveIsJoin(components, b, seatsB);
    SameSeats(components, a, b, seatsA, seatsB);
    SameSeats(components, b, a, seatsB, seatsA);
    JoinedUnordered(seatsA, seatsB);
  }

  /** The same list with one element moved to the end. */
  function ToEnd<T>(s: seq<T>, i: nat): (r: seq<T>)
    requires i < |s|
    ensures |r| == |s| && r[|r| - 1] == s[i]
  {
    s[..i] + s[i + 1..] + [s[i]]
  }

  lemma {:induction false} ToEndSame<T>(s: seq<T>, i: nat)
    requires i < |s|
    ensures multiset(ToEnd(s, i)) == multiset(s)
  {
    assert s == s[..i] + [s[i]] + s[i + 1..];
  }

  lemma {:induction false} SameMultisetSameMembers<T>(a: seq<T>, b: seq<T>)
    requires multiset(a) == multiset(b)
    ensures forall x :: x in a <==> x in b
  {
    forall x ensures x in a <==> x in b {
      assert x in a <==> x in multiset(a);
      assert x in b <==> x in multiset(b);
    }
  }

  lemma {:induction false} ToEndAt<T>(s: seq<T>, i: nat)
    requires i < |s|
    ensures forall k :: 0 <= k < |s| ==> ToEnd(s, i)[k] == s[if k < i then k else if k < |s| - 1 then k + 1 else i]
  {
  }

  lemma {:induction false} SeatsToEnd(components: seq<ComponentRow>, members: seq<MemberRow>, seats: seq<Seat>, i: nat)
    requires SeatsOf(components, members, seats) && i < |members|
    ensures SeatsOf(components, ToEnd(members, i), ToEnd(seats, i))
  {
    ToEndAt(members, i);
    ToEndAt(seats, i);
  }

  /** If moving any member to the end leaves the tree as it is, sharers agree. */
  lemma {:induction false} MovesDecide(components: seq<ComponentRow>, members: seq<MemberRow>)
    requires ComponentsSound(components) && Existing(components, members)
    requires forall i :: 0 <= i < |members| ==> ResolveMembers(components, ToEnd(members, i)) == ResolveMembers(components, members)
    ensures SharersAgree(components, members)
  {
    var seats := SeatsExist(components, members);
    ResolveIsJoin(components, members, seats);
    forall i | 0 <= i < |seats| ensures Shown(Joined(seats), seats[i]) {
      SeatsToEnd(components, members, seats, i);
      ResolveIsJoin(components, ToEnd(members, i), ToEnd(seats, i));
    }
    ShownAgree(seats, Joined(seats));
    forall others | SeatsOf(components, members, others) ensures Agreeing(others) {
      SeatsUnique(components, members, seats, others);
    }
  }

  /** Every order of a member list resolves to the same tree. */
  ghost predicate OrderIrrelevant(components: seq<ComponentRow>, members: seq<MemberRow>)
  {
    forall order: seq<MemberRow> :: multiset(order) == multiset(members) ==> ResolveMembers(components, order) == ResolveMembers(components, members)
  }

  /** That is so exactly when members sharing a path stand for equal entities. */
  lemma {:induction false} OrderIrrelevantExact(components: seq<ComponentRow>, members: seq<MemberRow>)
    requires ComponentsSound(components) && Existing(components, members)
    ensures OrderIrrelevant(components, members) <==> SharersAgree(components, members)
  {
    if SharersAgree(components, members) {
      forall order: seq<MemberRow> | multiset(order) == multiset(members)
        ensures ResolveMembers(components, order) == ResolveMembers(components, members)
      {
        SameMultisetSameMembers(order, members);
        ResolveUnordered(components, members, order);
      }
    }
    if OrderIrrelevant(components, members) {
      forall i | 0 <= i < |members| ensures ResolveMembers(components, ToEnd(members, i)) == ResolveMembers(components, members) {
        ToEndSame(members, i);
      }
      MovesDecide(components, members);
    }
  }

  /**
   A created vehicle release resolves to its members' entities, disabled exactly where the request
   says; of members that share a path, the last one counts.
   */
  lemma {:induction false} CreatedVehicleResolves(sha: Sha, db: Database, tag: string, version: string, members: seq<int>, disabled: seq<int>, i: nat)
    requires Inv(sha, db) && CreateVehicle(sha, db, tag, version, members, disabled).1.Created? && i < |members|
    requires forall j :: i < j < |members| && 0 <= members[j] < |db.components| && 0 <= members[i] < |db.components| ==>
               db.components[members[j]].path != db.components[members[i]].path
    ensures var (later, reply) := CreateVehicle(sha, db, tag, version, members, disabled);
            var m := members[i];
            && 0 <= m < |db.components|
            && Resolve(later, reply.id).Some?
            && var t, row := Resolve(later, reply.id).value, db.components[m];
               && row.path in t.entities
               && var e := t.entities[row.path];
                  && (e.disabled <==> m in disabled)
                  && e.kind == row.kind && e.version == Some(row.version) && ReadParts(row.parts) == Some(e.parts)
                  && e.updateMode.None? && e.adminDisabled.None?
  {
    VehicleCreationExact(sha, db, tag, version, members, disabled);
    assert GoodMembers(members, |db.components|);
    var rows := MemberRows(members, disabled);
    forall j | i < j < |members| ensures db.components[members[j]].path != db.components[members[i]].path {
      assert 0 <= members[j] < |db.components|;
    }
    MemberShown(db.components, rows, i);
  }

  lemma {:induction false} MemberShown(components: seq<ComponentRow>, rows: seq<MemberRow>, i: nat)
    requires ComponentsSound(components) && i < |rows| && forall j :: 0 <= j < |rows| ==> 0 <= rows[j].component < |components|
    requires forall j :: i < j < |rows| ==> components[rows[j].component].path != components[rows[i].component].path
    ensures ResolveMembers(components, rows).Some? && SeatAt(components, rows[i]).Some?
    ensures Shown(ResolveMembers(components, rows).value.entities, SeatAt(components, rows[i]).value)
  {
    var seats := SeatsExist(components, rows);
    ResolveIsJoin(components, rows, seats);
    assert SeatAt(components, rows[i]) == Some(seats[i]);
    forall j | i < j < |seats| ensures seats[j].path != seats[i].path {
      assert SeatAt(components, rows[j]) == Some(seats[j]);
    }
    LastShown(seats, i);
  }

  lemma {:induction false} LastShown(seats: seq<Seat>, i: nat)
    requires i < |seats| && LastSeat(seats, i)
    ensures Shown(Joined(seats), seats[i])
  {
    JoinedPaths(seats, seats[i].path);
    var k := LastSpeaks(seats, seats[i].path);
  }

  // --- reusing vehicle releases ----------------------------------------------

  ghost predicate HoldsMembers(sha: Sha, row: VehicleRow, members: seq<int>, disabled: seq<int>)
  {
    row.members == MemberRows(members, disabled) && row.identity == VehicleKey(sha, members, disabled)
  }

  /** Requests with equal identities store the same rows, in some order. */
  lemma {:induction false} SameRows(a: seq<int>, disabledA: seq<int>, b: seq<int>, disabledB: seq<int>, m: MemberRow)
    requires VehiclePreimage(a, disabledA) == VehiclePreimage(b, disabledB) && m in MemberRows(a, disabledA)
    ensures m in MemberRows(b, disabledB)
  {
    VehicleIdentityExact(a, disabledA, b, disabledB);
    var i :| 0 <= i < |a| && MemberRows(a, disabledA)[i] == m;
    var id := a[i];
    assert id in SetOf(a) && id in SetOf(b);
    assert id in disabledA <==> id in SetOf(disabledA) * SetOf(a);
    assert id in disabledB <==> id in SetOf(disabledB) * SetOf(b);
    var j :| 0 <= j < |b| && b[j] == id;
    assert MemberRows(b, disabledB)[j] == m;
  }

  lemma {:induction false} SameRowSets(a: seq<int>, disabledA: seq<int>, b: seq<int>, disabledB: seq<int>)
    requires VehiclePreimage(a, disabledA) == VehiclePreimage(b, disabledB)
    ensures forall m :: m in MemberRows(a, disabledA) <==> m in MemberRows(b, disabledB)
  {
    forall m ensures m in MemberRows(a, disabledA) <==> m in MemberRows(b, disabledB) {
      if m in MemberRows(a, disabledA) { SameRows(a, disabledA, b, disabledB, m); }
      if m in MemberRows(b, disabledB) { SameRows(b, disabledB, a, disabledA, m); }
    }
  }

  /** A reused vehicle release resolves to exactly the tree a fresh one would have. */
  lemma {:induction false} ReusedVehicleResolves(sha: Sha, requests: seq<Request>, tag: string, version: string, members: seq<int>, disabled: seq<int>, id: int,
                              held: seq<int>, heldDisabled: seq<int>)
    requires var db := Run(sha, EMPTY, requests);
             && CreateVehicle(sha, db, tag, version, members, disabled).1 == Reused(id) && 0 <= id < |db.vehicles|
             && HoldsMembers(sha, db.vehicles[id], held, heldDisabled)
             && SharersAgree(db.components, MemberRows(held, heldDisabled))
    requires Separates(sha, VehiclePreimage(members, disabled), VehiclePreimage(held, heldDisabled))
    ensures var db := Run(sha, EMPTY, requests);
            && Resolve(db, id).Some?
            && Resolve(db, id) == ResolveMembers(db.components, MemberRows(members, disabled))
  {
    var db := Run(sha, EMPTY, requests);
    ReachableSound(sha, requests);
    FindVehicleExact(db.vehicles, tag, VehicleKey(sha, members, disabled));
    PrintInjective(sha(VehiclePreimage(members, disabled)), sha(VehiclePreimage(held, heldDisabled)));
    SameRowSets(held, heldDisabled, members, disabled);
    RowsExist(sha, db, id);
    ResolveUnordered(db.components, MemberRows(held, heldDisabled), MemberRows(members, disabled));
  }

  lemma {:induction false} RowsExist(sha: Sha, db: Database, id: int)
    requires Inv(sha, db) && 0 <= id < |db.vehicles|
    ensures Existing(db.components, db.vehicles[id].members)
  {
    assert MembersSound(db.vehicles[id].members, |db.components|);
  }

  /** The tree of a fresh release is this one, for every list the identity does not tell from this one. */
  ghost predicate ReuseIsFaithful(components: seq<ComponentRow>, held: seq<int>, heldDisabled: seq<int>)
  {
    forall members: seq<int>, disabled: seq<int> ::
      GoodMembers(members, |components|) && VehiclePreimage(members, disabled) == VehiclePreimage(held, heldDisabled) ==>
        ResolveMembers(components, MemberRows(members, disabled)) == ResolveMembers(components, MemberRows(held, heldDisabled))
  }

  /** A release can stand in for every request of its identity exactly when its members that share a path stand for equal entities. */
  lemma {:induction false} ReuseExact(components: seq<ComponentRow>, held: seq<int>, heldDisabled: seq<int>)
    requires ComponentsSound(components) && GoodMembers(held, |components|)
    ensures ReuseIsFaithful(components, held, heldDisabled) <==> SharersAgree(components, MemberRows(held, heldDisabled))
  {
    var rows := MemberRows(held, heldDisabled);
    assert Existing(components, rows);
    if SharersAgree(components, rows) {
      forall members: seq<int>, disabled: seq<int> |
        GoodMembers(members, |components|) && VehiclePreimage(members, disabled) == VehiclePreimage(held, heldDisabled)
        ensures ResolveMembers(components, MemberRows(members, disabled)) == ResolveMembers(components, rows)
      {
        SameRowSets(held, heldDisabled, members, disabled);
        ResolveUnordered(components, rows, MemberRows(members, disabled));
      }
    }
    if ReuseIsFaithful(components, held, heldDisabled) {
      forall i | 0 <= i < |rows| ensures ResolveMembers(components, ToEnd(rows, i)) == ResolveMembers(components, rows) {
        MovedResolves(components, held, heldDisabled, i);
      }
      MovesDecide(components, rows);
    }
  }

  lemma {:induction false} MovedResolves(components: seq<ComponentRow>, held: seq<int>, heldDisabled: seq<int>, i: nat)
    requires GoodMembers(held, |components|) && ReuseIsFaithful(components, held, heldDisabled) && i < |held|
    ensures ResolveMembers(components, ToEnd(MemberRows(held, heldDisabled), i)) == ResolveMembers(components, MemberRows(held, heldDisabled))
  {
    SameIdentity(held, heldDisabled, i);
    MovedIsGood(held, |components|, i);
    MovedRows(held, heldDisabled, i);
    assert ResolveMembers(components, MemberRows(ToEnd(held, i), heldDisabled)) == ResolveMembers(components, MemberRows(held, heldDisabled));
  }

  lemma {:induction false} MovedRows(held: seq<int>, disabled: seq<int>, i: nat)
    requires i < |held|
    ensures MemberRows(ToEnd(held, i), disabled) == ToEnd(MemberRows(held, disabled), i)
  {
    ToEndAt(held, i);
    ToEndAt(MemberRows(held, disabled), i);
  }

  lemma {:induction false} SameIdentity(held: seq<int>, heldDisabled: seq<int>, i: nat)
    requires i < |held|
    ensures VehiclePreimage(ToEnd(held, i), heldDisabled) == VehiclePreimage(held, heldDisabled)
  {
    ToEndSame(held, i);
    SameMultisetSameMembers(ToEnd(held, i), held);
    assert SetOf(ToEnd(held, i)) == SetOf(held);
    VehicleIdentityExact(ToEnd(held, i), heldDisabled, held, heldDisabled);
  }

  lemma {:induction false} MovedIsGood(members: seq<int>, components: nat, i: nat)
    requires GoodMembers(members, components) && i < |members|
    ensures GoodMembers(ToEnd(members, i), components)
  {
    ToEndAt(members, i);
  }
}
