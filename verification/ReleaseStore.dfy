/**
 The release and channel tables as a state machine. Each handler runs to its end or to its first
 database error before the next one starts; the create handlers insert a row and then its children
 without a transaction, so an error leaves what was inserted so far. A row's id is its position,
 and child rows are kept with their parent in insertion order.
 */
module ReleaseStore {
  import opened Collections
  import opened ContentHashes
  import opened Wire
  import opened WireTheorems
  import opened Identities
  import opened TreeHash

  /** SHA-256, any function will do. */
  type Sha = string -> ContentHash

  datatype PartRow = PartRow(id: string, kind: string, contentHash: string)

  datatype ComponentRow = ComponentRow(path: string, kind: string, version: string, identity: string, parts: seq<PartRow>)

  datatype MemberRow = MemberRow(component: int, disabled: bool)

  datatype VehicleRow = VehicleRow(tag: string, version: string, identity: string, members: seq<MemberRow>)

  datatype Selector = Selector(channel: string, device: string, architecture: string)

  datatype ChannelRow = ChannelRow(vehicle: int, treeHash: string)

  datatype Binding = Binding(vehicle: int, device: string, architecture: string)

  datatype Database = Database(
    components: seq<ComponentRow>,
    vehicles: seq<VehicleRow>,
    bindings: set<Binding>,
    channels: map<Selector, ChannelRow>)

  datatype Request =
    | NewComponent(path: string, kind: string, version: string, parts: seq<Part>)
    | NewVehicle(tag: string, vehicleVersion: string, members: seq<int>, disabledMembers: seq<int>)
    | SetTarget(target: Selector, vehicle: int)

  datatype Reply = Created(id: int) | Reused(id: int) | TargetSet(treeHash: string) | DbError

  /** What a client asks to have resolved: a pinned release or a channel, and the tree hash it expects. */
  datatype Query = Query(
    vehicle: Option<int>,
    channel: Option<string>,
    device: Option<string>,
    architecture: Option<string>,
    treeHash: Option<string>)

  datatype Answer = Found(tree: Tree) | NoTarget | BadRequest | Internal

  const EMPTY: Database := Database([], [], {}, map[])

  // --- identities as stored --------------------------------------------------

  function ComponentKey(sha: Sha, kind: string, parts: seq<Part>): string
  {
    ToPrefixed(sha(ComponentPreimage(kind, parts)))
  }

  function VehicleKey(sha: Sha, members: seq<int>, disabled: seq<int>): string
  {
    ToPrefixed(sha(VehiclePreimage(members, disabled)))
  }

  function TreeKey(sha: Sha, t: Tree): string
  {
    ToPrefixed(sha(TreePreimage(t)))
  }

  // --- create a component release --------------------------------------------

  function PartRowFor(p: Part): PartRow
  {
    PartRow(p.id, p.kind, ToPrefixed(p.content))
  }

  function PartRows(parts: seq<Part>): (r: seq<PartRow>)
    ensures |r| == |parts| && forall i :: 0 <= i < |parts| ==> r[i] == PartRowFor(parts[i])
  {
    seq(|parts|, i requires 0 <= i < |parts| => PartRowFor(parts[i]))
  }

  /** How many children go in before the first repeated id hits the primary key. */
  ghost function InsertableParts(parts: seq<Part>): (n: nat)
    ensures n <= |parts| && DistinctIds(parts[..n])
    ensures n < |parts| ==> parts[n].id in Ids(parts[..n])
  {
    if DistinctIds(parts) then assert parts[..|parts|] == parts; |parts|
    else
      var init := parts[..|parts| - 1];
      var n := InsertableParts(init);
      assert init[..n] == parts[..n];
      if n < |init| then n
      else
        assert DistinctIds(init) && exists i :: 0 <= i < |init| && parts[i].id == parts[|parts| - 1].id;
        n
  }

  function FindComponent(rows: seq<ComponentRow>, path: string, identity: string): Option<int>
  {
    if rows == [] then None
    else
      match FindComponent(rows[..|rows| - 1], path, identity)
      case Some(i) => Some(i)
      case None =>
        var r := rows[|rows| - 1];
        if r.path == path && r.identity == identity then Some(|rows| - 1) else None
  }

  function FindVehicle(rows: seq<VehicleRow>, tag: string, identity: string): Option<int>
  {
    if rows == [] then None
    else
      match FindVehicle(rows[..|rows| - 1], tag, identity)
      case Some(i) => Some(i)
      case None =>
        var r := rows[|rows| - 1];
        if r.tag == tag && r.identity == identity then Some(|rows| - 1) else None
  }

  /** Reuse the release of this path and identity, or insert a row and then its children. */
  ghost function CutComponent(db: Database, path: string, kind: string, version: string, identity: string, parts: seq<Part>): (Database, Reply)
  {
    match FindComponent(db.components, path, identity)
    case Some(id) => (db, Reused(id))
    case None =>
      var n := InsertableParts(parts);
      (db.(components := db.components + [ComponentRow(path, kind, version, identity, PartRows(parts[..n]))]),
       if n == |parts| then Created(|db.components|) else DbError)
  }

  ghost function CreateComponent(sha: Sha, db: Database, path: string, kind: string, version: string, parts: seq<Part>): (Database, Reply)
  {
    CutComponent(db, path, kind, version, ComponentKey(sha, kind, parts), parts)
  }

  // --- create a vehicle release ----------------------------------------------

  function MemberRowFor(m: int, disabled: seq<int>): MemberRow
  {
    MemberRow(m, m in disabled)
  }

  function MemberRows(members: seq<int>, disabled: seq<int>): (r: seq<MemberRow>)
    ensures |r| == |members| && forall i :: 0 <= i < |members| ==> r[i] == MemberRowFor(members[i], disabled)
  {
    seq(|members|, i requires 0 <= i < |members| => MemberRowFor(members[i], disabled))
  }

  /** Members without repeats, each an existing component release. */
  ghost predicate GoodMembers(members: seq<int>, components: nat)
  {
    && (forall i, j :: 0 <= i < j < |members| ==> members[i] != members[j])
    && (forall i :: 0 <= i < |members| ==> 0 <= members[i] < components)
  }

  /** How many members go in before a repeat or an unknown component is refused. */
  ghost function InsertableMembers(members: seq<int>, components: nat): (n: nat)
    ensures n <= |members| && GoodMembers(members[..n], components)
    ensures n < |members| ==> members[n] in members[..n] || !(0 <= members[n] < components)
  {
    if GoodMembers(members, components) then assert members[..|members|] == members; |members|
    else
      var init := members[..|members| - 1];
      var n := InsertableMembers(init, components);
      assert init[..n] == members[..n];
      n
  }

  ghost function CutVehicle(db: Database, tag: string, version: string, identity: string, members: seq<int>, disabled: seq<int>): (Database, Reply)
  {
    match FindVehicle(db.vehicles, tag, identity)
    case Some(id) => (db, Reused(id))
    case None =>
      var n := InsertableMembers(members, |db.components|);
      (db.(vehicles := db.vehicles + [VehicleRow(tag, version, identity, MemberRows(members[..n], disabled))]),
       if n == |members| then Created(|db.vehicles|) else DbError)
  }

  ghost function CreateVehicle(sha: Sha, db: Database, tag: string, version: string, members: seq<int>, disabled: seq<int>): (Database, Reply)
  {
    CutVehicle(db, tag, version, VehicleKey(sha, members, disabled), members, disabled)
  }

  // --- resolve and set a target ----------------------------------------------

  /** Read one release's part rows; a malformed stored hash fails the whole read. */
  function ReadParts(rows: seq<PartRow>): Option<seq<Part>>
  {
    if rows == [] then Some([])
    else
      var r := rows[|rows| - 1];
      match (ReadParts(rows[..|rows| - 1]), Parse(r.contentHash))
      case (Some(init), Ok(h)) => Some(init + [Part(r.kind, r.id, h)])
      case _ => None
  }

  function EntityFor(row: ComponentRow, parts: seq<Part>, disabled: bool): Entity
  {
    Entity(row.kind, Some(row.version), None, parts, disabled, None)
  }

  /** Join members to their components; a later member with the same path replaces an earlier one. */
  function ResolveMembers(components: seq<ComponentRow>, members: seq<MemberRow>): Option<Tree>
  {
    if members == [] then Some(Tree(map[]))
    else
      var m := members[|members| - 1];
      match ResolveMembers(components, members[..|members| - 1])
      case None => None
      case Some(t) =>
        if !(0 <= m.component < |components|) then None
        else
          var row := components[m.component];
          match ReadParts(row.parts)
          case None => None
          case Some(parts) => Some(Tree(t.entities[row.path := EntityFor(row, parts, m.disabled)]))
  }

  /** The tree of a vehicle release; an unknown id has no members and resolves to the empty tree. */
  function Resolve(db: Database, vehicle: int): Option<Tree>
  {
    if 0 <= vehicle < |db.vehicles| then ResolveMembers(db.components, db.vehicles[vehicle].members)
    else Some(Tree(map[]))
  }

  function PointTarget(sha: Sha, db: Database, target: Selector, vehicle: int): (Database, Reply)
  {
    match Resolve(db, vehicle)
    case None => (db, DbError)
    case Some(t) =>
      if !(0 <= vehicle < |db.vehicles|) then (db, DbError)
      else
        (db.(bindings := db.bindings + {Binding(vehicle, target.device, target.architecture)},
             channels := db.channels[target := ChannelRow(vehicle, TreeKey(sha, t))]),
         TargetSet(TreeKey(sha, t)))
  }

  ghost function Handle(sha: Sha, db: Database, r: Request): (Database, Reply)
  {
    match r
    case NewComponent(path, kind, version, parts) => CreateComponent(sha, db, path, kind, version, parts)
    case NewVehicle(tag, version, members, disabled) => CreateVehicle(sha, db, tag, version, members, disabled)
    case SetTarget(target, vehicle) => PointTarget(sha, db, target, vehicle)
  }

  ghost function Run(sha: Sha, db: Database, requests: seq<Request>): Database
  {
    if requests == [] then db
    else Handle(sha, Run(sha, db, requests[..|requests| - 1]), requests[|requests| - 1]).0
  }

  // --- resolve a query -------------------------------------------------------

  /** The only target a channel has. */
  ghost predicate Sole(channels: map<Selector, ChannelRow>, channel: string, s: Selector)
  {
    && s in channels && s.channel == channel
    && forall other :: other in channels && other.channel == channel ==> other == s
  }

  /** Device and architecture together select a row; otherwise the channel must have exactly one. */
  ghost function ChannelVehicle(db: Database, channel: string, device: Option<string>, architecture: Option<string>): Option<int>
  {
    if device.Some? && architecture.Some? then
      var s := Selector(channel, device.value, architecture.value);
      if s in db.channels then Some(db.channels[s].vehicle) else None
    else if exists s :: Sole(db.channels, channel, s) then
      var s :| Sole(db.channels, channel, s);
      Some(db.channels[s].vehicle)
    else None
  }

  ghost function QueriedVehicle(db: Database, q: Query): Option<int>
  {
    match q.vehicle
    case Some(id) => if 0 <= id < |db.vehicles| then Some(id) else None
    case None => if q.channel.Some? then ChannelVehicle(db, q.channel.value, q.device, q.architecture) else None
  }

  ghost function Lookup(sha: Sha, db: Database, q: Query): Answer
  {
    if q.vehicle.None? && q.channel.None? then BadRequest
    else
      match QueriedVehicle(db, q)
      case None => NoTarget
      case Some(id) =>
        match Resolve(db, id)
        case None => Internal
        case Some(t) => if q.treeHash.Some? && q.treeHash.value != TreeKey(sha, t) then BadRequest else Found(t)
  }

  /** What an L1 request resolves to: a pinned release must have served this device and architecture before. */
  ghost function L1Lookup(sha: Sha, db: Database, q: Query, device: string, architecture: string): Answer
  {
    if q.vehicle.Some? && Binding(q.vehicle.value, device, architecture) !in db.bindings then NoTarget
    else Lookup(sha, db, q.(device := Some(device), architecture := Some(architecture)))
  }

  // --- the tables as mutable state -------------------------------------------

  class Tables {
    const sha: Sha
    var components: seq<ComponentRow>
    var vehicles: seq<VehicleRow>
    var bindings: set<Binding>
    var channels: map<Selector, ChannelRow>

    constructor (sha: Sha)
      ensures this.sha == sha && Snapshot() == EMPTY
    {
      this.sha := sha;
      components, vehicles, bindings, channels := [], [], {}, map[];
    }

    function Snapshot(): Database
      reads this
    {
      Database(components, vehicles, bindings, channels)
    }

    method LookUpComponent(path: string, identity: string) returns (r: Option<int>)
      ensures r == FindComponent(components, path, identity)
    {
      r := None;
      for i := 0 to |components|
        invariant r == FindComponent(components[..i], path, identity)
      {
        assert components[..i + 1][..i] == components[..i];
        if r.None? && components[i].path == path && components[i].identity == identity {
          r := Some(i);
        }
      }
      assert components[..|components|] == components;
    }

    method LookUpVehicle(tag: string, identity: string) returns (r: Option<int>)
      ensures r == FindVehicle(vehicles, tag, identity)
    {
      r := None;
      for i := 0 to |vehicles|
        invariant r == FindVehicle(vehicles[..i], tag, identity)
      {
        assert vehicles[..i + 1][..i] == vehicles[..i];
        if r.None? && vehicles[i].tag == tag && vehicles[i].identity == identity {
          r := Some(i);
        }
      }
      assert vehicles[..|vehicles|] == vehicles;
    }

    /** `POST /admin/component-releases`. */
    method PostComponent(path: string, kind: string, version: string, parts: seq<Part>) returns (reply: Reply)
      modifies this`components
      ensures (Snapshot(), reply) == CreateComponent(sha, old(Snapshot()), path, kind, version, parts)
    {
      var preimage := ComponentIdentity(kind, parts);
      reply := ReuseOrCutComponent(path, kind, version, ToPrefixed(sha(preimage)), parts);
    }

    method ReuseOrCutComponent(path: string, kind: string, version: string, identity: string, parts: seq<Part>) returns (reply: Reply)
      modifies this`components
      ensures (Snapshot(), reply) == CutComponent(old(Snapshot()), path, kind, version, identity, parts)
    {
      var found := LookUpComponent(path, identity);
      if found.Some? {
        return Reused(found.value);
      }
      var id := |components|;
      components := components + [ComponentRow(path, kind, version, identity, [])];
      var all := InsertParts(id, parts);
      assert components == old(components) + [ComponentRow(path, kind, version, identity, PartRows(parts[..InsertableParts(parts)]))];
      return if all then Created(id) else DbError;
    }

    /** Insert the part rows of a fresh release one by one, up to the first one the primary key refuses. */
    method InsertParts(id: nat, parts: seq<Part>) returns (all: bool)
      requires id < |components| && components[id].parts == []
      modifies this`components
      ensures components == old(components)[id := old(components[id]).(parts := PartRows(parts[..InsertableParts(parts)]))]
      ensures all <==> InsertableParts(parts) == |parts|
    {
      ghost var n := InsertableParts(parts);
      for i := 0 to |parts|
        invariant i <= n
        invariant components == old(components)[id := old(components[id]).(parts := PartRows(parts[..i]))]
      {
        var rows := components[id].parts;
        var clash := HasPart(rows, parts[i].id);
        PartClash(parts, i, rows, clash);
        if clash {
          return false;
        }
        PartRowsSnoc(parts, i);
        components := components[id := components[id].(parts := rows + [PartRow(parts[i].id, parts[i].kind, ToPrefixed(parts[i].content))])];
      }
      return true;
    }

    method HasPart(rows: seq<PartRow>, id: string) returns (found: bool)
      ensures found <==> exists j :: 0 <= j < |rows| && rows[j].id == id
    {
      for k := 0 to |rows|
        invariant forall j :: 0 <= j < k ==> rows[j].id != id
      {
        if rows[k].id == id {
          return true;
        }
      }
      return false;
    }

    /** `POST /admin/vehicle-releases`. */
    method PostVehicle(tag: string, version: string, members: seq<int>, disabled: seq<int>) returns (reply: Reply)
      modifies this`vehicles
      ensures (Snapshot(), reply) == CreateVehicle(sha, old(Snapshot()), tag, version, members, disabled)
    {
      var preimage := VehicleIdentity(members, disabled);
      reply := ReuseOrCutVehicle(tag, version, ToPrefixed(sha(preimage)), members, disabled);
    }

    method ReuseOrCutVehicle(tag: string, version: string, identity: string, members: seq<int>, disabled: seq<int>) returns (reply: Reply)
      modifies this`vehicles
      ensures (Snapshot(), reply) == CutVehicle(old(Snapshot()), tag, version, identity, members, disabled)
    {
      var found := LookUpVehicle(tag, identity);
      if found.Some? {
        return Reused(found.value);
      }
      var id := |vehicles|;
      var rows: seq<MemberRow> := [];
      vehicles := vehicles + [VehicleRow(tag, version, identity, rows)];
      for i := 0 to |members|
        invariant i <= InsertableMembers(members, |components|)
        invariant rows == MemberRows(members[..i], disabled)
        invariant vehicles == old(vehicles) + [VehicleRow(tag, version, identity, rows)]
      {
        var refused := !(0 <= members[i] < |components|) || members[i] in members[..i];
        MemberClash(members, |components|, i, refused);
        if refused {
          return DbError;
        }
        rows := rows + [MemberRow(members[i], members[i] in disabled)];
        vehicles := vehicles[id := VehicleRow(tag, version, identity, rows)];
      }
      assert members[..|members|] == members;
      return Created(id);
    }

    method ReadPartRows(rows: seq<PartRow>) returns (r: Option<seq<Part>>)
      ensures r == ReadParts(rows)
    {
      var parts: seq<Part> := [];
      for i := 0 to |rows|
        invariant ReadParts(rows[..i]) == Some(parts)
      {
        assert rows[..i + 1][..i] == rows[..i];
        var h := Parse(rows[i].contentHash);
        if h.Err? {
          ReadPartsStops(rows, i + 1);
          return None;
        }
        parts := parts + [Part(rows[i].kind, rows[i].id, h.value)];
      }
      assert rows[..|rows|] == rows;
      return Some(parts);
    }

    method ResolveToTree(vehicle: int) returns (r: Option<Tree>)
      ensures r == Resolve(Snapshot(), vehicle)
    {
      if !(0 <= vehicle < |vehicles|) {
        return Some(Tree(map[]));
      }
      var members := vehicles[vehicle].members;
      var t := Tree(map[]);
      for i := 0 to |members|
        invariant ResolveMembers(components, members[..i]) == Some(t)
      {
        assert members[..i + 1][..i] == members[..i];
        var m := members[i];
        if !(0 <= m.component < |components|) {
          ResolveStops(components, members, i + 1);
          return None;
        }
        var row := components[m.component];
        var parts := ReadPartRows(row.parts);
        if parts.None? {
          ResolveStops(components, members, i + 1);
          return None;
        }
        t := Tree(t.entities[row.path := Entity(row.kind, Some(row.version), None, parts.value, m.disabled, None)]);
      }
      assert members[..|members|] == members;
      return Some(t);
    }

    /** `PUT /admin/channel-targets`: both writes happen, or neither. */
    method PutTarget(target: Selector, vehicle: int) returns (reply: Reply)
      modifies this`bindings, this`channels
      ensures (Snapshot(), reply) == PointTarget(sha, old(Snapshot()), target, vehicle)
    {
      var t := ResolveToTree(vehicle);
      if t.None? {
        return DbError;
      }
      var preimage := ComputeTreeHash(t.value);
      var th := ToPrefixed(sha(preimage));
      if !(0 <= vehicle < |vehicles|) {
        return DbError;
      }
      bindings := bindings + {Binding(vehicle, target.device, target.architecture)};
      channels := channels[target := ChannelRow(vehicle, th)];
      return TargetSet(th);
    }

    method FindChannelVehicle(channel: string, device: Option<string>, architecture: Option<string>) returns (r: Option<int>)
      ensures r == ChannelVehicle(Snapshot(), channel, device, architecture)
    {
      if device.Some? && architecture.Some? {
        var s := Selector(channel, device.value, architecture.value);
        return if s in channels then Some(channels[s].vehicle) else None;
      }
      var rows := set s | s in channels && s.channel == channel;
      SoleExact(channels, channel, rows);
      if |rows| != 1 {
        return None;
      }
      var s :| s in rows;
      return Some(channels[s].vehicle);
    }

    method ResolveTarget(q: Query) returns (r: Answer)
      ensures r == Lookup(sha, Snapshot(), q)
    {
      var id: int;
      if q.vehicle.Some? {
        id := q.vehicle.value;
        if !(0 <= id < |vehicles|) {
          return NoTarget;
        }
      } else if q.channel.Some? {
        var found := FindChannelVehicle(q.channel.value, q.device, q.architecture);
        if found.None? {
          return NoTarget;
        }
        id := found.value;
      } else {
        return BadRequest;
      }
      var t := ResolveToTree(id);
      if t.None? {
        return Internal;
      }
      if q.treeHash.Some? {
        var preimage := ComputeTreeHash(t.value);
        if ToPrefixed(sha(preimage)) != q.treeHash.value {
          return BadRequest;
        }
      }
      return Found(t.value);
    }

    /** The target of an L1 request, before anything is built. */
    method ResolveForL1(q: Query, device: string, architecture: string) returns (r: Answer)
      ensures r == L1Lookup(sha, Snapshot(), q, device, architecture)
    {
      if q.vehicle.Some? {
        var matches := ReleaseMatches(q.vehicle.value, device, architecture);
        if !matches {
          return NoTarget;
        }
      }
      r := ResolveTarget(q.(device := Some(device), architecture := Some(architecture)));
    }

    method ReleaseMatches(vehicle: int, device: string, architecture: string) returns (r: bool)
      ensures r <==> Binding(vehicle, device, architecture) in bindings
    {
      r := exists b :: b in bindings && b.vehicle == vehicle && b.device == device && b.architecture == architecture;
    }
  }

  lemma {:induction false} SoleExact(channels: map<Selector, ChannelRow>, channel: string, rows: set<Selector>)
    requires rows == set s | s in channels && s.channel == channel
    ensures |rows| == 1 <==> exists s :: Sole(channels, channel, s)
    ensures |rows| == 1 ==> forall s, u :: s in rows && Sole(channels, channel, u) ==> s == u
  {
    if |rows| == 1 {
      var s :| s in rows;
      assert |rows - {s}| == 0;
      forall other | other in channels && other.channel == channel ensures other == s {
        assert other in rows;
        assert other in rows - {s} || other == s;
      }
      assert Sole(channels, channel, s);
    }
    if s :| Sole(channels, channel, s) {
      assert rows == {s};
    }
  }

  lemma {:induction false} PartClash(parts: seq<Part>, i: nat, rows: seq<PartRow>, clash: bool)
    requires i < |parts| && i <= InsertableParts(parts) && rows == PartRows(parts[..i])
    requires clash <==> exists j :: 0 <= j < i && rows[j].id == parts[i].id
    ensures if clash then i == InsertableParts(parts) else i < InsertableParts(parts)
  {
    var n := InsertableParts(parts);
    assert forall j :: 0 <= j < i ==> rows[j].id == parts[j].id;
    if i < n {
      NoRepeatBelow(parts, n, i);
    } else {
      RepeatedId(parts[..n], parts[n].id);
    }
  }

  lemma {:induction false} NoRepeatBelow(parts: seq<Part>, n: nat, i: nat)
    requires i < n <= |parts| && DistinctIds(parts[..n])
    ensures forall j :: 0 <= j < i ==> parts[j].id != parts[i].id
  {
    assert forall j :: 0 <= j < n ==> parts[..n][j] == parts[j];
  }

  lemma {:induction false} RepeatedId(parts: seq<Part>, id: string)
    requires id in Ids(parts)
    ensures exists j :: 0 <= j < |parts| && parts[j].id == id
  {
    var p :| p in parts && p.id == id;
  }

  lemma {:induction false} PartRowsSnoc(parts: seq<Part>, i: nat)
    requires i < |parts|
    ensures PartRows(parts[..i + 1]) == PartRows(parts[..i]) + [PartRowFor(parts[i])]
  {
  }

  lemma {:induction false} MemberClash(members: seq<int>, components: nat, i: nat, refused: bool)
    requires i < |members| && i <= InsertableMembers(members, components)
    requires refused <==> !(0 <= members[i] < components) || members[i] in members[..i]
    ensures if refused then i == InsertableMembers(members, components) else i < InsertableMembers(members, components)
  {
    var n := InsertableMembers(members, components);
    if i < n {
      assert members[..n][i] == members[i];
      assert forall j :: 0 <= j < i ==> members[..n][j] != members[..n][i];
    }
  }

  lemma {:induction false} ReadPartsStops(rows: seq<PartRow>, n: nat)
    requires n <= |rows| && ReadParts(rows[..n]).None?
    ensures ReadParts(rows).None?
    decreases |rows|
  {
    if n < |rows| {
      assert rows[..|rows| - 1][..n] == rows[..n];
      ReadPartsStops(rows[..|rows| - 1], n);
    } else {
      assert rows[..n] == rows;
    }
  }

  lemma {:induction false} ResolveStops(components: seq<ComponentRow>, members: seq<MemberRow>, n: nat)
    requires n <= |members| && ResolveMembers(components, members[..n]).None?
    ensures ResolveMembers(components, members).None?
    decreases |members|
  {
    if n < |members| {
      assert members[..|members| - 1][..n] == members[..n];
      ResolveStops(components, members[..|members| - 1], n);
    } else {
      assert members[..n] == members;
    }
  }
}
