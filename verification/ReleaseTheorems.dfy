/** What the release store keeps over every run of requests, failing ones included. */
module ReleaseTheorems {
  import opened Collections
  import opened ContentHashes
  import opened Wire
  import opened WireTheorems
  import opened Canonical
  import opened Identities
  import opened TreeHash
  import opened ReleaseStore
  import TreeHashTheorems

  // --- what every state keeps ------------------------------------------------

  /** The rows of some parts with distinct ids. */
  ghost predicate HoldsParts(rows: seq<PartRow>)
  {
    exists parts :: DistinctIds(parts) && rows == PartRows(parts)
  }

  ghost predicate ComponentsSound(components: seq<ComponentRow>)
  {
    && (forall i :: 0 <= i < |components| ==> HoldsParts(components[i].parts))
    && (forall i, j :: 0 <= i < j < |components| ==> components[i].path != components[j].path || components[i].identity != components[j].identity)
  }

  ghost predicate MembersSound(members: seq<MemberRow>, components: nat)
  {
    && (forall i :: 0 <= i < |members| ==> 0 <= members[i].component < components)
    && (forall i, j :: 0 <= i < j < |members| ==> members[i].component != members[j].component)
  }

  ghost predicate VehiclesSound(vehicles: seq<VehicleRow>, components: nat)
  {
    && (forall i :: 0 <= i < |vehicles| ==> MembersSound(vehicles[i].members, components))
    && (forall i, j :: 0 <= i < j < |vehicles| ==> vehicles[i].tag != vehicles[j].tag || vehicles[i].identity != vehicles[j].identity)
  }

  /** A channel row names an existing release, carries the hash of its tree, and has its binding. */
  ghost predicate ChannelSound(sha: Sha, db: Database, s: Selector, row: ChannelRow)
  {
    && 0 <= row.vehicle < |db.vehicles|
    && Resolve(db, row.vehicle).Some?
    && row.treeHash == TreeKey(sha, Resolve(db, row.vehicle).value)
    && Binding(row.vehicle, s.device, s.architecture) in db.bindings
  }

  ghost predicate Inv(sha: Sha, db: Database)
  {
    && ComponentsSound(db.components)
    && VehiclesSound(db.vehicles, |db.components|)
    && (forall b :: b in db.bindings ==> 0 <= b.vehicle < |db.vehicles|)
    && (forall s :: s in db.channels ==> ChannelSound(sha, db, s, db.channels[s]))
  }

  /** Nothing that was stored is lost or altered; only channel rows may move. */
  ghost predicate Extends(db: Database, later: Database)
  {
    db.components <= later.components && db.vehicles <= later.vehicles && db.bindings <= later.bindings
  }

  // --- reading back ----------------------------------------------------------

  predicate Reads(row: PartRow, p: Part)
  {
    row.id == p.id && row.kind == p.kind && Parse(row.contentHash) == Ok(p.content)
  }

  lemma {:induction false} ReadLast(rows: seq<PartRow>, init: seq<Part>, last: Part)
    requires rows != [] && ReadParts(rows[..|rows| - 1]) == Some(init) && Reads(rows[|rows| - 1], last)
    ensures ReadParts(rows) == Some(init + [last])
  {
  }

  lemma {:induction false} ReadTo(rows: seq<PartRow>, parts: seq<Part>, n: nat)
    requires n <= |rows| == |parts| && forall i :: 0 <= i < n ==> Reads(rows[i], parts[i])
    ensures ReadParts(rows[..n]) == Some(parts[..n])
  {
    if n > 0 {
      ReadTo(rows, parts, n - 1);
      assert rows[..n][..n - 1] == rows[..n - 1];
      assert parts[..n] == parts[..n - 1] + [parts[n - 1]];
      ReadLast(rows[..n], parts[..n - 1], parts[n - 1]);
    }
  }

  /** What is written as part rows is read back as it was. */
  lemma {:induction false} ReadBack(parts: seq<Part>)
    ensures ReadParts(PartRows(parts)) == Some(parts)
  {
    var rows := PartRows(parts);
    forall i | 0 <= i < |parts| ensures Reads(rows[i], parts[i]) {
      PrintParseRoundTrip(parts[i].content);
    }
    ReadTo(rows, parts, |parts|);
    assert rows[..|parts|] == rows && parts[..|parts|] == parts;
  }

  lemma {:induction false} ResolveMembersTotal(components: seq<ComponentRow>, members: seq<MemberRow>)
    requires ComponentsSound(components) && MembersSound(members, |components|)
    ensures ResolveMembers(components, members).Some?
    ensures DistinctTree(ResolveMembers(components, members).value)
  {
    if members != [] {
      var init, m := members[..|members| - 1], members[|members| - 1];
      ResolveMembersTotal(components, init);
      var parts := StoredParts(components[m.component].parts);
      ResolveLast(components, members, ResolveMembers(components, init).value, parts);
    }
  }

  lemma {:induction false} StoredParts(rows: seq<PartRow>) returns (parts: seq<Part>)
    requires HoldsParts(rows)
    ensures DistinctIds(parts) && ReadParts(rows) == Some(parts)
  {
    parts :| DistinctIds(parts) && rows == PartRows(parts);
    ReadBack(parts);
  }

  lemma {:induction false} ResolveLast(components: seq<ComponentRow>, members: seq<MemberRow>, t: Tree, parts: seq<Part>)
    requires members != [] && ResolveMembers(components, members[..|members| - 1]) == Some(t)
    requires var m := members[|members| - 1];
             0 <= m.component < |components| && ReadParts(components[m.component].parts) == Some(parts)
    ensures var m := members[|members| - 1];
            var row := components[m.component];
            ResolveMembers(components, members) == Some(Tree(t.entities[row.path := EntityFor(row, parts, m.disabled)]))
  {
  }

  lemma {:induction false} ResolveMembersGrows(components: seq<ComponentRow>, later: seq<ComponentRow>, members: seq<MemberRow>)
    requires components <= later && forall i :: 0 <= i < |members| ==> 0 <= members[i].component < |components|
    ensures ResolveMembers(later, members) == ResolveMembers(components, members)
  {
    if members != [] {
      ResolveMembersGrows(components, later, members[..|members| - 1]);
    }
  }

  /** Every existing release resolves, to a tree without repeated part ids. */
  lemma {:induction false} ResolveTotal(sha: Sha, db: Database, vehicle: int)
    requires Inv(sha, db)
    ensures Resolve(db, vehicle).Some? && DistinctTree(Resolve(db, vehicle).value)
  {
    if 0 <= vehicle < |db.vehicles| {
      ResolveMembersTotal(db.components, db.vehicles[vehicle].members);
    }
  }

  lemma {:induction false} ResolveStable(sha: Sha, db: Database, later: Database, vehicle: int)
    requires Inv(sha, db) && Extends(db, later) && 0 <= vehicle < |db.vehicles|
    ensures Resolve(later, vehicle) == Resolve(db, vehicle)
  {
    assert MembersSound(db.vehicles[vehicle].members, |db.components|);
    ResolveMembersGrows(db.components, later.components, db.vehicles[vehicle].members);
  }

  // --- look-ups --------------------------------------------------------------

  lemma {:induction false} FindComponentExact(rows: seq<ComponentRow>, path: string, identity: string)
    ensures var r := FindComponent(rows, path, identity);
            && (r.Some? ==> 0 <= r.value < |rows| && rows[r.value].path == path && rows[r.value].identity == identity)
            && (r.None? ==> forall i :: 0 <= i < |rows| ==> rows[i].path != path || rows[i].identity != identity)
  {
    if rows != [] {
      FindComponentExact(rows[..|rows| - 1], path, identity);
    }
  }

  lemma {:induction false} FindVehicleExact(rows: seq<VehicleRow>, tag: string, identity: string)
    ensures var r := FindVehicle(rows, tag, identity);
            && (r.Some? ==> 0 <= r.value < |rows| && rows[r.value].tag == tag && rows[r.value].identity == identity)
            && (r.None? ==> forall i :: 0 <= i < |rows| ==> rows[i].tag != tag || rows[i].identity != identity)
  {
    if rows != [] {
      FindVehicleExact(rows[..|rows| - 1], tag, identity);
    }
  }

  // --- every request keeps the invariant -------------------------------------

  lemma {:induction false} HandleExtends(sha: Sha, db: Database, r: Request)
    ensures Extends(db, Handle(sha, db, r).0)
  {
  }

  lemma {:induction false} ChannelsStable(sha: Sha, db: Database, later: Database)
    requires Inv(sha, db) && Extends(db, later) && later.channels == db.channels
    ensures forall s :: s in later.channels ==> ChannelSound(sha, later, s, later.channels[s])
  {
    forall s | s in later.channels ensures ChannelSound(sha, later, s, later.channels[s]) {
      assert ChannelSound(sha, db, s, db.channels[s]);
      ResolveStable(sha, db, later, db.channels[s].vehicle);
    }
  }

  lemma {:induction false} CutComponentKeeps(sha: Sha, db: Database, path: string, kind: string, version: string, identity: string, parts: seq<Part>)
    requires Inv(sha, db)
    ensures Inv(sha, CutComponent(db, path, kind, version, identity, parts).0)
  {
    var later := CutComponent(db, path, kind, version, identity, parts).0;
    FindComponentExact(db.components, path, identity);
    if later != db {
      var stored := parts[..InsertableParts(parts)];
      assert HoldsParts(PartRows(stored));
      assert later.components == db.components + [ComponentRow(path, kind, version, identity, PartRows(stored))];
      assert ComponentsSound(later.components);
      VehiclesGrow(db.vehicles, |db.components|, |later.components|);
      ChannelsStable(sha, db, later);
    }
  }

  lemma {:induction false} VehiclesGrow(vehicles: seq<VehicleRow>, components: nat, later: nat)
    requires VehiclesSound(vehicles, components) && components <= later
    ensures VehiclesSound(vehicles, later)
  {
    forall i | 0 <= i < |vehicles| ensures MembersSound(vehicles[i].members, later) {
      assert MembersSound(vehicles[i].members, components);
    }
  }

  lemma {:induction false} CutVehicleKeeps(sha: Sha, db: Database, tag: string, version: string, identity: string, members: seq<int>, disabled: seq<int>)
    requires Inv(sha, db)
    ensures Inv(sha, CutVehicle(db, tag, version, identity, members, disabled).0)
  {
    var later := CutVehicle(db, tag, version, identity, members, disabled).0;
    FindVehicleExact(db.vehicles, tag, identity);
    if later != db {
      var stored := members[..InsertableMembers(members, |db.components|)];
      var rows := MemberRows(stored, disabled);
      assert MembersSound(rows, |db.components|);
      assert later.vehicles == db.vehicles + [VehicleRow(tag, version, identity, rows)];
      assert VehiclesSound(later.vehicles, |later.components|);
      ChannelsStable(sha, db, later);
    }
  }

  lemma {:induction false} PointTargetKeeps(sha: Sha, db: Database, target: Selector, vehicle: int)
    requires Inv(sha, db)
    ensures Inv(sha, PointTarget(sha, db, target, vehicle).0)
  {
    var later := PointTarget(sha, db, target, vehicle).0;
    if later != db {
      ResolveStable(sha, db, later, vehicle);
      assert ChannelSound(sha, later, target, later.channels[target]);
      forall s | s in db.channels && s != target ensures ChannelSound(sha, later, s, later.channels[s]) {
        assert ChannelSound(sha, db, s, db.channels[s]);
        ResolveStable(sha, db, later, db.channels[s].vehicle);
      }
    }
  }

  lemma {:induction false} HandleKeeps(sha: Sha, db: Database, r: Request)
    requires Inv(sha, db)
    ensures Inv(sha, Handle(sha, db, r).0)
  {
    match r
    case NewComponent(path, kind, version, parts) =>
      CutComponentKeeps(sha, db, path, kind, version, ComponentKey(sha, kind, parts), parts);
    case NewVehicle(tag, version, members, disabled) =>
      CutVehicleKeeps(sha, db, tag, version, VehicleKey(sha, members, disabled), members, disabled);
    case SetTarget(target, vehicle) => PointTargetKeeps(sha, db, target, vehicle);
  }

  lemma {:induction false} RunKeeps(sha: Sha, db: Database, requests: seq<Request>)
    requires Inv(sha, db)
    ensures Inv(sha, Run(sha, db, requests)) && Extends(db, Run(sha, db, requests))
  {
    if requests != [] {
      var init, last := requests[..|requests| - 1], requests[|requests| - 1];
      RunKeeps(sha, db, init);
      HandleKeeps(sha, Run(sha, db, init), last);
      HandleExtends(sha, Run(sha, db, init), last);
    }
  }

  /** Every state the store can reach from empty tables is sound. */
  lemma {:induction false} ReachableSound(sha: Sha, requests: seq<Request>)
    ensures Inv(sha, Run(sha, EMPTY, requests))
  {
    RunKeeps(sha, EMPTY, requests);
  }

  function Pinned(row: ChannelRow): Query
  {
    Query(Some(row.vehicle), None, None, None, Some(row.treeHash))
  }

  lemma {:induction false} PinnedLookup(sha: Sha, db: Database, id: int, t: Tree, device: string, architecture: string)
    requires 0 <= id < |db.vehicles| && Resolve(db, id) == Some(t)
    requires Binding(id, device, architecture) in db.bindings
    ensures L1Lookup(sha, db, Pinned(ChannelRow(id, TreeKey(sha, t))), device, architecture) == Found(t)
  {
  }

  lemma {:induction false} PinnedStable(sha: Sha, db: Database, later: Database, s: Selector)
    requires Inv(sha, db) && Extends(db, later) && s in db.channels
    ensures var row := db.channels[s];
            && Resolve(db, row.vehicle).Some?
            && L1Lookup(sha, later, Pinned(row), s.device, s.architecture) == Found(Resolve(db, row.vehicle).value)
  {
    var row := db.channels[s];
    assert ChannelSound(sha, db, s, row);
    ResolveStable(sha, db, later, row.vehicle);
    PinnedLookup(sha, later, row.vehicle, Resolve(db, row.vehicle).value, s.device, s.architecture);
  }

  /**
   A (release, tree hash) pair once served by a channel answers an L1 request of its device and
   architecture with the same tree in every later state, wherever the channel has moved since.
   */
  lemma {:induction false} PinnedForever(sha: Sha, before: seq<Request>, after: seq<Request>, s: Selector)
    requires s in Run(sha, EMPTY, before).channels
    ensures var db := Run(sha, EMPTY, before);
            var later := Run(sha, db, after);
            var row := db.channels[s];
            && Resolve(db, row.vehicle).Some?
            && L1Lookup(sha, later, Pinned(row), s.device, s.architecture) == Found(Resolve(db, row.vehicle).value)
  {
    var db := Run(sha, EMPTY, before);
    ReachableSound(sha, before);
    RunKeeps(sha, db, after);
    PinnedStable(sha, db, Run(sha, db, after), s);
  }

  /** The hash tells these two strings apart if they differ. */
  ghost predicate Separates(sha: Sha, a: string, b: string)
  {
    sha(a) == sha(b) ==> a == b
  }

  ghost predicate Unambiguous(t: Tree)
  {
    CleanTree(t) && DISABLED !in t.entities
  }

  /**
   What the tree hash is for: an L1 request that carries the hash of the tree a plan was made for is
   answered with that very target, or refused.
   */
  lemma {:induction false} TreeHashBinds(sha: Sha, db: Database, q: Query, device: string, architecture: string, planned: Tree, t: Tree)
    requires q.treeHash == Some(TreeKey(sha, planned)) && L1Lookup(sha, db, q, device, architecture) == Found(t)
    requires Unambiguous(planned) && Unambiguous(t)
    requires Separates(sha, TreePreimage(planned), TreePreimage(t))
    ensures SameTarget(t, planned)
  {
    AnswerMatches(sha, db, q.(device := Some(device), architecture := Some(architecture)), t);
    PrintInjective(sha(TreePreimage(planned)), sha(TreePreimage(t)));
    TreeHashTheorems.TreeHashCanonical(t, planned);
  }

  /** A tree found under an expected hash has it. */
  lemma {:induction false} AnswerMatches(sha: Sha, db: Database, q: Query, t: Tree)
    requires q.treeHash.Some? && Lookup(sha, db, q) == Found(t)
    ensures q.treeHash.value == TreeKey(sha, t)
  {
  }

  // --- channels and bindings as history --------------------------------------

  /** The last request of the run successfully set this target. */
  ghost predicate SetsLast(sha: Sha, requests: seq<Request>, target: Selector, vehicle: int)
  {
    && requests != []
    && requests[|requests| - 1] == SetTarget(target, vehicle)
    && Handle(sha, Run(sha, EMPTY, requests[..|requests| - 1]), SetTarget(target, vehicle)).1.TargetSet?
  }

  /** Some request of the run, on some channel, did. */
  ghost predicate Served(sha: Sha, requests: seq<Request>, b: Binding)
  {
    && requests != []
    && (|| Served(sha, requests[..|requests| - 1], b)
        || exists channel: string :: SetsLast(sha, requests, Selector(channel, b.device, b.architecture), b.vehicle))
  }

  /** The bindings are exactly the (release, device, architecture) tuples that were ever set as a target. */
  lemma {:induction false} BindingsAreHistory(sha: Sha, requests: seq<Request>, b: Binding)
    ensures b in Run(sha, EMPTY, requests).bindings <==> Served(sha, requests, b)
  {
    if requests != [] {
      var init, last := requests[..|requests| - 1], requests[|requests| - 1];
      BindingsAreHistory(sha, init, b);
      HandleExtends(sha, Run(sha, EMPTY, init), last);
      if b in Run(sha, EMPTY, requests).bindings && b !in Run(sha, EMPTY, init).bindings {
        assert SetsLast(sha, requests, Selector(last.target.channel, b.device, b.architecture), b.vehicle);
      }
    }
  }

  /** The release a selector was last successfully pointed at. */
  ghost function LastSet(sha: Sha, requests: seq<Request>, s: Selector): Option<int>
  {
    if requests == [] then None
    else
      var last := requests[|requests| - 1];
      if last.SetTarget? && SetsLast(sha, requests, s, last.vehicle) then Some(last.vehicle)
      else LastSet(sha, requests[..|requests| - 1], s)
  }

  /** A channel row is there exactly when its selector was ever set, and names the last release it was set to. */
  lemma {:induction false} ChannelIsLastSet(sha: Sha, requests: seq<Request>, s: Selector)
    ensures var channels := Run(sha, EMPTY, requests).channels;
            LastSet(sha, requests, s) == if s in channels then Some(channels[s].vehicle) else None
  {
    if requests != [] {
      var init, last := requests[..|requests| - 1], requests[|requests| - 1];
      ChannelIsLastSet(sha, init, s);
      ChannelStep(sha, Run(sha, EMPTY, init), last, s);
    }
  }

  /** A request changes a selector's row exactly by successfully setting it. */
  lemma {:induction false} ChannelStep(sha: Sha, db: Database, r: Request, s: Selector)
    ensures var (later, reply) := Handle(sha, db, r);
            && (r.SetTarget? && r.target == s && reply.TargetSet? ==> s in later.channels && later.channels[s].vehicle == r.vehicle)
            && (!(r.SetTarget? && r.target == s && reply.TargetSet?) ==>
                  (s in later.channels <==> s in db.channels) && (s in db.channels ==> later.channels[s] == db.channels[s]))
  {
  }

  // --- who is served what, over every run ------------------------------------

  /** Setting a target succeeds exactly for existing releases, and answers with the hash of the release's tree. */
  lemma {:induction false} SetTargetExact(sha: Sha, requests: seq<Request>, s: Selector, vehicle: int)
    ensures var db := Run(sha, EMPTY, requests);
            var (later, reply) := Handle(sha, db, SetTarget(s, vehicle));
            && (reply.TargetSet? <==> 0 <= vehicle < |db.vehicles|)
            && (reply.TargetSet? ==> Resolve(db, vehicle).Some? && reply.treeHash == TreeKey(sha, Resolve(db, vehicle).value))
            && (!reply.TargetSet? ==> reply == DbError && later == db)
  {
    ReachableSound(sha, requests);
    ResolveTotal(sha, Run(sha, EMPTY, requests), vehicle);
  }

  /** What a request for a release gets, given the tree hash it may expect. */
  function AnswerFor(sha: Sha, t: Tree, expected: Option<string>): Answer
  {
    if expected.Some? && expected.value != TreeKey(sha, t) then BadRequest else Found(t)
  }

  lemma {:induction false} ChannelRowResolves(sha: Sha, requests: seq<Request>, s: Selector)
    requires LastSet(sha, requests, s).Some?
    ensures var db := Run(sha, EMPTY, requests);
            s in db.channels && db.channels[s].vehicle == LastSet(sha, requests, s).value
            && Resolve(db, LastSet(sha, requests, s).value).Some?
            && Binding(LastSet(sha, requests, s).value, s.device, s.architecture) in db.bindings
  {
    ChannelIsLastSet(sha, requests, s);
    ReachableSound(sha, requests);
    var db := Run(sha, EMPTY, requests);
    assert ChannelSound(sha, db, s, db.channels[s]);
  }

  /**
   An L1 request by channel: served if and only if that very channel, device and architecture was
   ever set, and then with the tree of the release it was last set to, or refused for its hash.
   */
  lemma {:induction false} ChannelRequestExact(sha: Sha, requests: seq<Request>, s: Selector, ignored: Option<string>, alsoIgnored: Option<string>, expected: Option<string>)
    ensures var db := Run(sha, EMPTY, requests);
            var r := L1Lookup(sha, db, Query(None, Some(s.channel), ignored, alsoIgnored, expected), s.device, s.architecture);
            match LastSet(sha, requests, s)
            case None => r == NoTarget
            case Some(v) => Resolve(db, v).Some? && r == AnswerFor(sha, Resolve(db, v).value, expected)
  {
    ChannelIsLastSet(sha, requests, s);
    if LastSet(sha, requests, s).Some? {
      ChannelRowResolves(sha, requests, s);
    }
    assert s == Selector(s.channel, s.device, s.architecture);
  }

  /** An L1 request for a pinned release: served if and only if that release was ever set for this device and architecture. */
  lemma {:induction false} PinnedRequestExact(sha: Sha, requests: seq<Request>, q: Query, device: string, architecture: string)
    requires q.vehicle.Some?
    ensures var db := Run(sha, EMPTY, requests);
            var r := L1Lookup(sha, db, q, device, architecture);
            if Served(sha, requests, Binding(q.vehicle.value, device, architecture)) then
              Resolve(db, q.vehicle.value).Some? && r == AnswerFor(sha, Resolve(db, q.vehicle.value).value, q.treeHash)
            else r == NoTarget
  {
    var db := Run(sha, EMPTY, requests);
    BindingsAreHistory(sha, requests, Binding(q.vehicle.value, device, architecture));
    ReachableSound(sha, requests);
    ResolveTotal(sha, db, q.vehicle.value);
  }

  /** Whatever an L1 request is answered with is a release that was set for its device and architecture. */
  lemma {:induction false} FoundIsBound(sha: Sha, requests: seq<Request>, q: Query, device: string, architecture: string, t: Tree) returns (v: int)
    requires L1Lookup(sha, Run(sha, EMPTY, requests), q, device, architecture) == Found(t)
    ensures Served(sha, requests, Binding(v, device, architecture)) && Resolve(Run(sha, EMPTY, requests), v) == Some(t)
  {
    if q.vehicle.Some? {
      v := q.vehicle.value;
      PinnedRequestExact(sha, requests, q, device, architecture);
    } else {
      var s := Selector(q.channel.value, device, architecture);
      ChannelRequestExact(sha, requests, s, q.device, q.architecture, q.treeHash);
      assert q == Query(None, Some(s.channel), q.device, q.architecture, q.treeHash);
      v := LastSet(sha, requests, s).value;
      ChannelRowResolves(sha, requests, s);
      BindingsAreHistory(sha, requests, Binding(v, device, architecture));
    }
  }

  /** The only selector of its channel that was ever set. */
  ghost predicate OnlyOneSet(sha: Sha, requests: seq<Request>, s: Selector)
  {
    && LastSet(sha, requests, s).Some?
    && forall other: Selector :: other.channel == s.channel && LastSet(sha, requests, other).Some? ==> other == s
  }

  /** Asked by channel without both device and architecture: served if and only if exactly one selector of the channel was ever set. */
  lemma {:induction false} BareChannelExact(sha: Sha, requests: seq<Request>, channel: string, device: Option<string>, architecture: Option<string>, expected: Option<string>)
    requires device.None? || architecture.None?
    ensures var db := Run(sha, EMPTY, requests);
            var r := Lookup(sha, db, Query(None, Some(channel), device, architecture, expected));
            && (r == NoTarget <==> !exists s: Selector :: s.channel == channel && OnlyOneSet(sha, requests, s))
            && forall s: Selector :: s.channel == channel && OnlyOneSet(sha, requests, s) ==>
                 var v := LastSet(sha, requests, s).value;
                 Resolve(db, v).Some? && r == AnswerFor(sha, Resolve(db, v).value, expected)
  {
    var db := Run(sha, EMPTY, requests);
    forall s: Selector ensures s.channel == channel && OnlyOneSet(sha, requests, s) <==> Sole(db.channels, channel, s) {
      OnlyOneIsSole(sha, requests, s);
    }
    forall s: Selector | s.channel == channel && OnlyOneSet(sha, requests, s)
      ensures Sole(db.channels, channel, s) && Resolve(db, LastSet(sha, requests, s).value).Some?
      ensures db.channels[s].vehicle == LastSet(sha, requests, s).value
    {
      ChannelRowResolves(sha, requests, s);
      OnlyOneIsSole(sha, requests, s);
    }
    ReachableSound(sha, requests);
    SoleLookup(sha, db, channel, device, architecture, expected);
  }

  /** Asked for a release by id, as the preview does: any existing one is served, whatever channel or device is named. */
  lemma {:induction false} ReleaseRequestExact(sha: Sha, requests: seq<Request>, q: Query)
    requires q.vehicle.Some?
    ensures var db := Run(sha, EMPTY, requests);
            var r := Lookup(sha, db, q);
            if 0 <= q.vehicle.value < |db.vehicles| then
              Resolve(db, q.vehicle.value).Some? && r == AnswerFor(sha, Resolve(db, q.vehicle.value).value, q.treeHash)
            else r == NoTarget
  {
    ReachableSound(sha, requests);
    ResolveTotal(sha, Run(sha, EMPTY, requests), q.vehicle.value);
  }

  /** The release a query means: the pinned one, the one its selector was last set to, or the one the channel's only selector was. */
  ghost predicate AsksFor(sha: Sha, requests: seq<Request>, q: Query, v: int)
  {
    if q.vehicle.Some? then v == q.vehicle.value && 0 <= v < |Run(sha, EMPTY, requests).vehicles|
    else
      q.channel.Some?
      && if q.device.Some? && q.architecture.Some? then
           LastSet(sha, requests, Selector(q.channel.value, q.device.value, q.architecture.value)) == Some(v)
         else
           exists s: Selector :: s.channel == q.channel.value && OnlyOneSet(sha, requests, s) && LastSet(sha, requests, s) == Some(v)
  }

  /** Every answer in a reachable state: a bad request if neither release nor channel is named, otherwise the tree of the release asked for, if there is one. */
  lemma {:induction false} LookupExact(sha: Sha, requests: seq<Request>, q: Query)
    ensures var db := Run(sha, EMPTY, requests);
            var r := Lookup(sha, db, q);
            if q.vehicle.None? && q.channel.None? then r == BadRequest
            else
              && (r == NoTarget <==> forall v :: !AsksFor(sha, requests, q, v))
              && forall v :: AsksFor(sha, requests, q, v) ==> Resolve(db, v).Some? && r == AnswerFor(sha, Resolve(db, v).value, q.treeHash)
    ensures var r := Lookup(sha, Run(sha, EMPTY, requests), q); r != Internal && (r.Found? ==> DistinctTree(r.tree))
  {
    FoundIsDistinct(sha, requests, q);
    if q.vehicle.Some? {
      ReleaseRequestExact(sha, requests, q);
      assert 0 <= q.vehicle.value < |Run(sha, EMPTY, requests).vehicles| ==> AsksFor(sha, requests, q, q.vehicle.value);
    } else if q.channel.Some? {
      if q.device.Some? && q.architecture.Some? {
        SelectorLookup(sha, requests, q);
      } else {
        BareLookup(sha, requests, q);
      }
    }
  }

  lemma {:induction false} FoundIsDistinct(sha: Sha, requests: seq<Request>, q: Query)
    ensures var r := Lookup(sha, Run(sha, EMPTY, requests), q); r != Internal && (r.Found? ==> DistinctTree(r.tree))
  {
    var db := Run(sha, EMPTY, requests);
    ReachableSound(sha, requests);
    var id := QueriedVehicle(db, q);
    if id.Some? {
      ResolveTotal(sha, db, id.value);
    }
  }

  lemma {:induction false} SelectorLookup(sha: Sha, requests: seq<Request>, q: Query)
    requires q.vehicle.None? && q.channel.Some? && q.device.Some? && q.architecture.Some?
    ensures var db := Run(sha, EMPTY, requests);
            var r := Lookup(sha, db, q);
            && (r == NoTarget <==> forall v :: !AsksFor(sha, requests, q, v))
            && forall v :: AsksFor(sha, requests, q, v) ==> Resolve(db, v).Some? && r == AnswerFor(sha, Resolve(db, v).value, q.treeHash)
  {
    var s := Selector(q.channel.value, q.device.value, q.architecture.value);
    ChannelRequestExact(sha, requests, s, q.device, q.architecture, q.treeHash);
    assert q == Query(None, Some(s.channel), Some(s.device), Some(s.architecture), q.treeHash);
    if LastSet(sha, requests, s).Some? {
      assert AsksFor(sha, requests, q, LastSet(sha, requests, s).value);
    }
  }

  lemma {:induction false} BareLookup(sha: Sha, requests: seq<Request>, q: Query)
    requires q.vehicle.None? && q.channel.Some? && (q.device.None? || q.architecture.None?)
    ensures var db := Run(sha, EMPTY, requests);
            var r := Lookup(sha, db, q);
            && (r == NoTarget <==> forall v :: !AsksFor(sha, requests, q, v))
            && forall v :: AsksFor(sha, requests, q, v) ==> Resolve(db, v).Some? && r == AnswerFor(sha, Resolve(db, v).value, q.treeHash)
  {
    BareChannelExact(sha, requests, q.channel.value, q.device, q.architecture, q.treeHash);
    assert q == Query(None, Some(q.channel.value), q.device, q.architecture, q.treeHash);
    if s: Selector :| s.channel == q.channel.value && OnlyOneSet(sha, requests, s) {
      assert AsksFor(sha, requests, q, LastSet(sha, requests, s).value);
    }
  }

  lemma {:induction false} OnlyOneIsSole(sha: Sha, requests: seq<Request>, s: Selector)
    ensures OnlyOneSet(sha, requests, s) <==> Sole(Run(sha, EMPTY, requests).channels, s.channel, s)
  {
    forall other: Selector ensures LastSet(sha, requests, other).Some? <==> other in Run(sha, EMPTY, requests).channels {
      ChannelIsLastSet(sha, requests, other);
    }
  }

  lemma {:induction false} SoleLookup(sha: Sha, db: Database, channel: string, device: Option<string>, architecture: Option<string>, expected: Option<string>)
    requires Inv(sha, db) && (device.None? || architecture.None?)
    ensures var r := Lookup(sha, db, Query(None, Some(channel), device, architecture, expected));
            && (r == NoTarget <==> !exists s :: Sole(db.channels, channel, s))
            && forall s :: Sole(db.channels, channel, s) ==>
                 Resolve(db, db.channels[s].vehicle).Some? && r == AnswerFor(sha, Resolve(db, db.channels[s].vehicle).value, expected)
  {
    var q := Query(None, Some(channel), device, architecture, expected);
    forall s | Sole(db.channels, channel, s) ensures SoleServed(sha, db, q, s) {
      SoleFound(sha, db, channel, device, architecture, expected, s);
    }
    if s :| Sole(db.channels, channel, s) {
      assert SoleServed(sha, db, q, s);
    } else {
      NoneSole(sha, db, channel, device, architecture, expected);
    }
  }

  lemma {:induction false} NoneSole(sha: Sha, db: Database, channel: string, device: Option<string>, architecture: Option<string>, expected: Option<string>)
    requires (device.None? || architecture.None?) && forall s :: !Sole(db.channels, channel, s)
    ensures Lookup(sha, db, Query(None, Some(channel), device, architecture, expected)) == NoTarget
  {
  }

  ghost predicate SoleServed(sha: Sha, db: Database, q: Query, s: Selector)
    requires s in db.channels
  {
    Resolve(db, db.channels[s].vehicle).Some? && Lookup(sha, db, q) == AnswerFor(sha, Resolve(db, db.channels[s].vehicle).value, q.treeHash)
  }

  lemma {:induction false} SoleFound(sha: Sha, db: Database, channel: string, device: Option<string>, architecture: Option<string>, expected: Option<string>, s: Selector)
    requires Inv(sha, db) && (device.None? || architecture.None?) && Sole(db.channels, channel, s)
    ensures SoleServed(sha, db, Query(None, Some(channel), device, architecture, expected), s)
  {
    SoleVehicle(db, channel, device, architecture, s);
    ResolveTotal(sha, db, db.channels[s].vehicle);
  }

  lemma {:induction false} SoleVehicle(db: Database, channel: string, device: Option<string>, architecture: Option<string>, s: Selector)
    requires (device.None? || architecture.None?) && Sole(db.channels, channel, s)
    ensures ChannelVehicle(db, channel, device, architecture) == Some(db.channels[s].vehicle)
  {
    assert forall other :: Sole(db.channels, channel, other) ==> other == s;
  }
}
