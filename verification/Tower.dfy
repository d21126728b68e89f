/**
 Tower 2's side of an update: which components of a resolved target go into the per-device L1
 campaign, and the assembly of that campaign from the artifact index.
 */
module Tower {
  import opened Collections
  import opened Ordering
  import opened ContentHashes
  import opened Wire
  import opened Suit

  function Digests(parts: seq<Part>): set<ContentHash>
  {
    set p | p in parts :: p.content
  }

  /** The report has this path, and every resolved digest is somewhere in its bank, under any name. */
  predicate EntityAgreed(reported: Tree, path: string, resolved: Entity)
  {
    path in reported.entities && Digests(resolved.parts) <= Digests(reported.entities[path].parts)
  }

  datatype Verdict = Include | Disable | Skip | Nothing

  function ReportedAdmin(reported: Option<Tree>, path: string): Option<bool>
  {
    if reported.Some? then reported.value.AdminAt(path) else None
  }

  function Classify(reported: Option<Tree>, path: string, entity: Entity): Verdict
  {
    if entity.disabled then
      if ReportedAdmin(reported, path) == Some(false) then Disable else Skip
    else if entity.parts == [] then Nothing
    else if reported.Some? && reported.value.AdminAt(path) != Some(true) && EntityAgreed(reported.value, path, entity) then Skip
    else Include
  }

  /** The listed paths that get the given verdict, in the listed order. */
  function WithVerdict(tree: Tree, reported: Option<Tree>, paths: seq<string>, v: Verdict): seq<string>
    requires forall p :: p in paths ==> p in tree.entities
  {
    if paths == [] then []
    else
      var last := paths[|paths| - 1];
      WithVerdict(tree, reported, paths[..|paths| - 1], v)
      + if Classify(reported, last, tree.entities[last]) == v then [last] else []
  }

  method EntityAgreedLoop(have: seq<Part>, want: seq<Part>) returns (agreed: bool)
    ensures agreed <==> Digests(want) <= Digests(have)
  {
    for i := 0 to |want|
      invariant Digests(want[..i]) <= Digests(have)
    {
      var found := false;
      for k := 0 to |have|
        invariant found <==> want[i].content in Digests(have[..k])
      {
        if have[k].content == want[i].content {
          found := true;
        }
        assert have[..k + 1] == have[..k] + [have[k]];
      }
      assert have[..|have|] == have;
      if !found {
        assert want[i] in want;
        return false;
      }
      assert want[..i + 1] == want[..i] + [want[i]];
    }
    assert want[..|want|] == want;
    return true;
  }

  method PartitionPaths(tree: Tree, reported: Option<Tree>, paths: seq<string>)
    returns (included: seq<string>, disabled: seq<string>, skipped: seq<string>)
    requires forall p :: p in paths ==> p in tree.entities
    ensures included == WithVerdict(tree, reported, paths, Include)
    ensures disabled == WithVerdict(tree, reported, paths, Disable)
    ensures skipped == WithVerdict(tree, reported, paths, Skip)
  {
    included, disabled, skipped := [], [], [];
    for i := 0 to |paths|
      invariant included == WithVerdict(tree, reported, paths[..i], Include)
      invariant disabled == WithVerdict(tree, reported, paths[..i], Disable)
      invariant skipped == WithVerdict(tree, reported, paths[..i], Skip)
    {
      var path := paths[i];
      var entity := tree.entities[path];
      assert paths[..i + 1][..i] == paths[..i];
      var admin := ReportedAdmin(reported, path);
      if entity.disabled {
        if admin == Some(false) {
          disabled := disabled + [path];
        } else {
          skipped := skipped + [path];
        }
      } else if entity.parts != [] {
        var agreed := false;
        if reported.Some? && admin != Some(true) && path in reported.value.entities {
          agreed := EntityAgreedLoop(reported.value.entities[path].parts, entity.parts);
        }
        if agreed {
          skipped := skipped + [path];
        } else {
          included := included + [path];
        }
      }
    }
    assert paths[..|paths|] == paths;
  }

  // --- L1 assembly -----------------------------------------------------------

  datatype L1Response = Signed(campaign: Campaign) | NoContent | NotFound

  function EnvelopePartFor(p: Part, entry: ArtifactEntry): EnvelopePart
  {
    EnvelopePart(p.id, p.content, entry.size, entry.cek, entry.nonce, Some(entry.outer))
  }

  /** Every part's content is in the artifact index. */
  predicate Indexed(parts: seq<Part>, index: Index)
  {
    forall p :: p in parts ==> p.content in index
  }

  function EnvelopeParts(parts: seq<Part>, index: Index): (r: seq<EnvelopePart>)
    requires Indexed(parts, index)
    ensures |r| == |parts|
    ensures forall i :: 0 <= i < |parts| ==> r[i] == EnvelopePartFor(parts[i], index[parts[i].content])
  {
    seq(|parts|, i requires 0 <= i < |parts| => EnvelopePartFor(parts[i], index[parts[i].content]))
  }

  predicate CanBuild(entity: Entity, index: Index)
  {
    entity.disabled || Indexed(entity.parts, index)
  }

  /** The L2 of one component: a disable directive, or its parts as stored in the index. */
  function L2For(path: string, entity: Entity, index: Index, device: Recipient, sequence: nat): Manifest
    requires CanBuild(entity, index)
  {
    if entity.disabled then DisableManifest(path, sequence)
    else Manifest(sequence, ComponentsFor(path, EnvelopeParts(entity.parts, index), device), None)
  }

  /** The paths that get an L2. */
  function Built(tree: Tree, reported: Option<Tree>): set<string>
  {
    set p | p in tree.entities && Classify(reported, p, tree.entities[p]) in {Include, Disable}
  }

  predicate SomeSkipped(tree: Tree, reported: Option<Tree>)
  {
    exists p :: p in tree.entities && Classify(reported, p, tree.entities[p]) == Skip
  }

  /** The campaign embeds exactly one L2 per built path. */
  ghost predicate Carries(c: Campaign, tree: Tree, built: set<string>, index: Index, device: Recipient, sequence: nat)
    requires forall p :: p in built ==> p in tree.entities && CanBuild(tree.entities[p], index)
  {
    && c.sequence == sequence
    && c.integrated.Keys == (set p | p in built :: Key(p))
    && forall p :: p in built ==>
         Key(p) in c.integrated && c.integrated[Key(p)] == Cbor(L2For(p, tree.entities[p], index, device, sequence))
  }

  /**
   What the L1 call answers: a campaign carrying the built components; no content when there is
   nothing to build but something was skipped; not found when a part is not indexed or the
   target has nothing at all.
   */
  ghost predicate Answers(tree: Tree, reported: Option<Tree>, index: Index, device: Recipient, sequence: nat, r: L1Response)
  {
    var built := Built(tree, reported);
    var buildable := forall p :: p in built ==> CanBuild(tree.entities[p], index);
    match r
    case NotFound => !buildable || (built == {} && !SomeSkipped(tree, reported))
    case NoContent => built == {} && SomeSkipped(tree, reported)
    case Signed(c) => built != {} && buildable && Carries(c, tree, built, index, device, sequence)
  }

  method CollectParts(parts: seq<Part>, index: Index) returns (r: Option<seq<EnvelopePart>>)
    ensures r.Some? <==> Indexed(parts, index)
    ensures r.Some? ==> r.value == EnvelopeParts(parts, index)
  {
    var out: seq<EnvelopePart> := [];
    for i := 0 to |parts|
      invariant forall k :: 0 <= k < i ==> parts[k].content in index
      invariant |out| == i
      invariant forall k :: 0 <= k < i ==> out[k] == EnvelopePartFor(parts[k], index[parts[k].content])
    {
      if parts[i].content !in index {
        return None;
      }
      var entry := index[parts[i].content];
      out := out + [EnvelopePart(parts[i].id, parts[i].content, entry.size, entry.cek, entry.nonce, Some(entry.outer))];
    }
    return Some(out);
  }

  /** Build the L2s of the listed components, or give up at the first part the index does not know. */
  method BuildL2s(tree: Tree, paths: seq<string>, index: Index, device: Recipient, sequence: nat)
    returns (r: Option<seq<(string, Manifest)>>)
    requires forall p :: p in paths ==> p in tree.entities
    ensures r.Some? <==> forall p :: p in paths ==> CanBuild(tree.entities[p], index)
    ensures r.Some? ==>
      && |r.value| == |paths|
      && forall i :: 0 <= i < |paths| ==>
           r.value[i] == (paths[i], L2For(paths[i], tree.entities[paths[i]], index, device, sequence))
  {
    var l2s: seq<(string, Manifest)> := [];
    for i := 0 to |paths|
      invariant forall k :: 0 <= k < i ==> CanBuild(tree.entities[paths[k]], index)
      invariant |l2s| == i
      invariant forall k :: 0 <= k < i ==>
        l2s[k] == (paths[k], L2For(paths[k], tree.entities[paths[k]], index, device, sequence))
    {
      var path, entity := paths[i], tree.entities[paths[i]];
      var l2;
      if entity.disabled {
        l2 := DisableManifest(path, sequence);
      } else {
        var parts := CollectParts(entity.parts, index);
        if parts.None? {
          assert path in paths;
          return None;
        }
        l2 := BuildEnvelope(path, parts.value, device, sequence);
      }
      l2s := l2s + [(path, l2)];
    }
    return Some(l2s);
  }

  lemma {:induction false} WithVerdictMembers(tree: Tree, reported: Option<Tree>, paths: seq<string>, v: Verdict)
    requires forall p :: p in paths ==> p in tree.entities
    ensures forall p :: p in WithVerdict(tree, reported, paths, v)
                        <==> p in paths && Classify(reported, p, tree.entities[p]) == v
    ensures Ascending(paths) ==> Ascending(WithVerdict(tree, reported, paths, v))
  {
    if paths != [] {
      var init, last := paths[..|paths| - 1], paths[|paths| - 1];
      WithVerdictMembers(tree, reported, init, v);
      assert forall p :: p in paths <==> p in init || p == last;
      var r := WithVerdict(tree, reported, init, v);
      if Ascending(paths) {
        assert Ascending(init);
        forall i | 0 <= i < |r| ensures Less(r[i], last) {
          assert r[i] in init;
        }
      }
    }
  }

  /** The chosen components, flashes first, then disables. */
  ghost predicate Chosen(tree: Tree, reported: Option<Tree>, included: seq<string>, disabled: seq<string>)
  {
    && Ascending(included) && Ascending(disabled)
    && (forall p :: p in included <==> p in tree.entities && Classify(reported, p, tree.entities[p]) == Include)
    && (forall p :: p in disabled <==> p in tree.entities && Classify(reported, p, tree.entities[p]) == Disable)
  }

  lemma {:induction false} ChosenDistinct(tree: Tree, reported: Option<Tree>, included: seq<string>, disabled: seq<string>)
    requires Chosen(tree, reported, included, disabled)
    ensures var all := included + disabled;
            && (forall p :: p in all <==> p in Built(tree, reported))
            && forall i, j :: 0 <= i < j < |all| ==> all[i] != all[j]
  {
    var all := included + disabled;
    forall i, j | 0 <= i < j < |all| ensures all[i] != all[j] {
      if j < |included| {
        LessAsymmetric(included[i], included[j]);
      } else if i >= |included| {
        LessAsymmetric(disabled[i - |included|], disabled[j - |included|]);
      } else {
        assert included[i] in included && disabled[j - |included|] in disabled;
      }
    }
  }

  /** The L1 call: partition, build one L2 per chosen component, embed them; an empty campaign has no body. */
  method ChannelTargetL1(tree: Tree, reported: Option<Tree>, index: Index, device: Recipient, sequence: nat)
    returns (r: L1Response)
    ensures Answers(tree, reported, index, device, sequence, r)
  {
    var paths := tree.Paths();
    SortedKeysAscending(tree.entities.Keys);
    var included, disabled, skipped := PartitionPaths(tree, reported, paths);
    WithVerdictMembers(tree, reported, paths, Include);
    WithVerdictMembers(tree, reported, paths, Disable);
    WithVerdictMembers(tree, reported, paths, Skip);
    r := AssembleL1(tree, reported, included, disabled, skipped, index, device, sequence);
  }

  method AssembleL1(tree: Tree, reported: Option<Tree>, included: seq<string>, disabled: seq<string>,
                    skipped: seq<string>, index: Index, device: Recipient, sequence: nat)
    returns (r: L1Response)
    requires Chosen(tree, reported, included, disabled)
    requires forall p :: p in skipped <==> p in tree.entities && Classify(reported, p, tree.entities[p]) == Skip
    ensures Answers(tree, reported, index, device, sequence, r)
  {
    var all := included + disabled;
    ChosenDistinct(tree, reported, included, disabled);
    assert all == [] <==> Built(tree, reported) == {} by {
      assert all != [] ==> all[0] in all;
    }
    assert skipped == [] <==> !SomeSkipped(tree, reported) by {
      assert skipped != [] ==> skipped[0] in skipped;
    }
    var l2s := BuildL2s(tree, all, index, device, sequence);
    if l2s.None? {
      return NotFound;
    }
    if l2s.value == [] {
      return if skipped != [] then NoContent else NotFound;
    }
    var c := BuildCampaign(l2s.value, sequence);
    assert DistinctNames(l2s.value);
    CampaignCarries(c, tree, Built(tree, reported), all, l2s.value, index, device, sequence);
    return Signed(c);
  }

  lemma {:induction false} CampaignCarries(c: Campaign, tree: Tree, built: set<string>, all: seq<string>, l2s: seq<(string, Manifest)>,
                        index: Index, device: Recipient, sequence: nat)
    requires forall p :: p in all <==> p in built
    requires forall p :: p in built ==> p in tree.entities && CanBuild(tree.entities[p], index)
    requires |l2s| == |all|
    requires forall i :: 0 <= i < |all| ==> l2s[i] == (all[i], L2For(all[i], tree.entities[all[i]], index, device, sequence))
    requires DistinctNames(l2s) && c == Campaign(sequence, Integrated(l2s))
    ensures Carries(c, tree, built, index, device, sequence)
  {
    forall p | p in built
      ensures Key(p) in c.integrated && c.integrated[Key(p)] == Cbor(L2For(p, tree.entities[p], index, device, sequence))
    {
      var i :| 0 <= i < |all| && all[i] == p;
      IntegratedAt(l2s, i);
    }
    forall k ensures k in c.integrated <==> k in (set p | p in built :: Key(p)) {
      IntegratedKeys(l2s, k);
      if k in c.integrated {
        var i :| 0 <= i < |l2s| && k == Key(l2s[i].0);
        assert all[i] in all;
      }
    }
  }
}
