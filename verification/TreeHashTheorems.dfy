/** Which trees share a hash preimage: order independence, and exactly when the preimage fixes the target. */
module TreeHashTheorems {
  import opened Collections
  import opened Ordering
  import opened ContentHashes
  import opened Wire
  import opened WireTheorems
  import opened Canonical
  import opened TreeHash

  // --- a sheet fixes an entity's content -------------------------------------

  function IdList(parts: seq<Part>): (r: seq<string>)
    ensures |r| == |parts| && forall i :: 0 <= i < |parts| ==> r[i] == parts[i].id
  {
    seq(|parts|, i requires 0 <= i < |parts| => parts[i].id)
  }

  lemma {:induction false} PartLineUnique(p: Part, q: Part)
    requires '\0' !in p.id && '\0' !in q.id && PartLine(p) == PartLine(q)
    ensures p.id == q.id && p.content == q.content
  {
    assert PartLine(p) == p.id + ['\0'] + ToPrefixed(p.content);
    assert PartLine(q) == q.id + ['\0'] + ToPrefixed(q.content);
    SplitUnique('\0', p.id, ToPrefixed(p.content), q.id, ToPrefixed(q.content));
    PrintInjective(p.content, q.content);
  }

  lemma {:induction false} SortedMembers(parts: seq<Part>)
    ensures forall p :: p in SortById(parts) <==> p in parts
    ensures |SortById(parts)| == |parts|
  {
    SortSorts(parts);
    forall p ensures p in SortById(parts) <==> p in parts {
      assert p in SortById(parts) <==> p in multiset(SortById(parts));
      assert p in parts <==> p in multiset(parts);
    }
    assert |multiset(SortById(parts))| == |multiset(parts)|;
  }

  lemma {:induction false} SheetToPart(sa: seq<Part>, sb: seq<Part>, p: Part) returns (q: Part)
    requires PartLines(sa) == PartLines(sb) && p in sa && '\0' !in p.id && forall r :: r in sb ==> '\0' !in r.id
    ensures q in sb && q.id == p.id && q.content == p.content
  {
    var i :| 0 <= i < |sa| && sa[i] == p;
    assert PartLines(sa)[i] == PartLines(sb)[i];
    q := sb[i];
    assert q in sb;
    PartLineUnique(p, q);
  }

  lemma {:induction false} SheetToBank(a: seq<Part>, b: seq<Part>)
    requires DistinctIds(a) && DistinctIds(b)
    requires (forall p :: p in a ==> '\0' !in p.id) && (forall p :: p in b ==> '\0' !in p.id)
    requires PartLines(SortById(a)) == PartLines(SortById(b))
    ensures forall id :: id in Bank(a) ==> id in Bank(b) && Bank(b)[id] == Bank(a)[id]
  {
    SortedMembers(a);
    SortedMembers(b);
    BankKeys(a);
    forall id | id in Bank(a) ensures id in Bank(b) && Bank(b)[id] == Bank(a)[id] {
      var p :| p in a && p.id == id;
      BankOfDistinct(a, p);
      var q := SheetToPart(SortById(a), SortById(b), p);
      BankOfDistinct(b, q);
    }
  }

  lemma {:induction false} BankToSheet(a: seq<Part>, b: seq<Part>)
    requires DistinctIds(a) && DistinctIds(b) && Bank(a) == Bank(b)
    ensures PartLines(SortById(a)) == PartLines(SortById(b))
  {
    var sa, sb := SortById(a), SortById(b);
    SortSorts(a);
    SortSorts(b);
    SortedMembers(a);
    SortedMembers(b);
    BankKeys(a);
    BankKeys(b);
    forall id ensures id in IdList(sa) <==> id in Bank(a) {
      IdsListed(a, sa, id);
    }
    forall id ensures id in IdList(sb) <==> id in Bank(b) {
      IdsListed(b, sb, id);
    }
    AscendingUnique(IdList(sa), IdList(sb));
    assert |sa| == |sb|;
    forall i | 0 <= i < |sa| ensures PartLines(sa)[i] == PartLines(sb)[i] {
      assert IdList(sa)[i] == IdList(sb)[i];
      assert sa[i] in sa && sb[i] in sb;
      BankOfDistinct(a, sa[i]);
      BankOfDistinct(b, sb[i]);
    }
  }

  lemma {:induction false} IdsListed(parts: seq<Part>, sorted: seq<Part>, id: string)
    requires forall p :: p in sorted <==> p in parts
    ensures id in IdList(sorted) <==> id in Ids(parts)
  {
    if id in IdList(sorted) {
      var i :| 0 <= i < |sorted| && IdList(sorted)[i] == id;
      assert sorted[i] in sorted;
    }
    if id in Ids(parts) {
      var p :| p in parts && p.id == id;
      assert p in sorted;
      var i :| 0 <= i < |sorted| && sorted[i] == p;
      assert IdList(sorted)[i] == id;
    }
  }

  /** Part lines are equal exactly when the banks are. */
  lemma {:induction false} SheetExact(a: seq<Part>, b: seq<Part>)
    requires DistinctIds(a) && DistinctIds(b)
    requires (forall p :: p in a ==> '\0' !in p.id) && (forall p :: p in b ==> '\0' !in p.id)
    ensures PartLines(SortById(a)) == PartLines(SortById(b)) <==> Bank(a) == Bank(b)
  {
    if Bank(a) == Bank(b) {
      BankToSheet(a, b);
    } else if PartLines(SortById(a)) == PartLines(SortById(b)) {
      SheetToBank(a, b);
      SheetToBank(b, a);
    }
  }

  // --- from trees to block lists ---------------------------------------------

  lemma {:induction false} SheetMarked(parts: seq<Part>)
    requires forall p :: p in parts ==> '\n' !in p.id
    ensures forall l :: l in PartLines(SortById(parts)) ==> '\0' in l && '\n' !in l
  {
    var s := SortById(parts);
    SortedMembers(parts);
    forall l | l in PartLines(s) ensures '\0' in l && '\n' !in l {
      var i :| 0 <= i < |s| && PartLines(s)[i] == l;
      assert s[i] in s;
      PrintedIsPlain(s[i].content);
      assert l[|s[i].id|] == '\0';
    }
  }

  lemma {:induction false} BlocksWellFormed(t: Tree, paths: seq<string>)
    requires CleanTree(t) && Ascending(paths) && forall p :: p in paths ==> p in t.entities
    ensures WellFormed(BlocksOver(t, paths)) && LineFree(BlocksOver(t, paths))
  {
    var bs := BlocksOver(t, paths);
    forall i | 0 <= i < |bs|
      ensures '\0' !in bs[i].path && '\n' !in bs[i].path && forall l :: l in bs[i].sheet ==> '\0' in l && '\n' !in l
    {
      assert paths[i] in paths;
      SheetMarked(t.entities[paths[i]].parts);
    }
  }

  lemma {:induction false} PreimageIsRendering(t: Tree, u: Tree)
    requires CleanTree(t) && CleanTree(u)
    ensures WellFormed(Blocks(t)) && WellFormed(Blocks(u))
    ensures TreePreimage(t) == TreePreimage(u) <==> Render(Blocks(t)) == Render(Blocks(u))
  {
    SortedKeysAscending(t.entities.Keys);
    SortedKeysAscending(u.entities.Keys);
    BlocksWellFormed(t, t.Paths());
    BlocksWellFormed(u, u.Paths());
    RenderFree(Blocks(t));
    RenderFree(Blocks(u));
    if TreePreimage(t) == TreePreimage(u) {
      TerminatedInjective('\n', Render(Blocks(t)), Render(Blocks(u)));
    }
  }

  lemma {:induction false} BlockExact(path: string, e: Entity, f: Entity)
    requires DistinctIds(e.parts) && DistinctIds(f.parts)
    requires (forall p :: p in e.parts ==> '\0' !in p.id) && (forall p :: p in f.parts ==> '\0' !in p.id)
    ensures BlockOf(path, e) == BlockOf(path, f) <==> e.disabled == f.disabled && Bank(e.parts) == Bank(f.parts)
  {
    SheetExact(e.parts, f.parts);
  }

  lemma {:induction false} BlocksPaths(t: Tree, tp: seq<string>, u: Tree, up: seq<string>)
    requires (forall p :: p in tp ==> p in t.entities) && (forall p :: p in up ==> p in u.entities)
    requires BlocksOver(t, tp) == BlocksOver(u, up)
    ensures tp == up
  {
    assert |tp| == |up|;
    forall i | 0 <= i < |tp| ensures tp[i] == up[i] {
      assert BlocksOver(t, tp)[i] == BlocksOver(u, up)[i];
    }
  }

  /** Equal block lists are equal targets. */
  lemma {:induction false} BlocksExact(t: Tree, u: Tree)
    requires CleanTree(t) && CleanTree(u)
    ensures Blocks(t) == Blocks(u) <==> SameTarget(t, u)
  {
    BlocksExactOver(t, t.Paths(), u, u.Paths());
  }

  lemma {:induction false} BlocksExactOver(t: Tree, tp: seq<string>, u: Tree, up: seq<string>)
    requires CleanTree(t) && CleanTree(u)
    requires forall p :: p in tp <==> p in t.entities
    requires forall p :: p in up <==> p in u.entities
    requires t.entities.Keys == u.entities.Keys ==> tp == up
    ensures BlocksOver(t, tp) == BlocksOver(u, up) <==> SameTarget(t, u)
  {
    if BlocksOver(t, tp) == BlocksOver(u, up) {
      BlocksPaths(t, tp, u, up);
    }
    if t.entities.Keys == u.entities.Keys {
      BlocksPointwise(t, u, tp);
      BlocksAgree(t, u);
    }
  }

  lemma {:induction false} BlocksAgree(t: Tree, u: Tree)
    requires CleanTree(t) && CleanTree(u) && t.entities.Keys == u.entities.Keys
    ensures (forall path :: path in t.entities ==> BlockOf(path, t.entities[path]) == BlockOf(path, u.entities[path])) <==> SameTarget(t, u)
  {
    forall path | path in t.entities ensures BlockOf(path, t.entities[path]) == BlockOf(path, u.entities[path]) <==> SameAt(t, u, path) {
      BlockExact(path, t.entities[path], u.entities[path]);
    }
    assert SameTarget(t, u) <==> forall path :: path in t.entities ==> SameAt(t, u, path);
  }

  ghost predicate SameAt(t: Tree, u: Tree, path: string)
    requires path in t.entities && path in u.entities
  {
    t.entities[path].disabled == u.entities[path].disabled && Bank(t.entities[path].parts) == Bank(u.entities[path].parts)
  }

  lemma {:induction false} BlocksPointwise(t: Tree, u: Tree, paths: seq<string>)
    requires t.entities.Keys == u.entities.Keys && forall p :: p in paths <==> p in t.entities
    ensures BlocksOver(t, paths) == BlocksOver(u, paths)
            <==> forall path :: path in t.entities ==> BlockOf(path, t.entities[path]) == BlockOf(path, u.entities[path])
  {
    if BlocksOver(t, paths) == BlocksOver(u, paths) {
      forall path | path in t.entities ensures BlockOf(path, t.entities[path]) == BlockOf(path, u.entities[path]) {
        var i :| 0 <= i < |paths| && paths[i] == path;
        assert BlocksOver(t, paths)[i] == BlocksOver(u, paths)[i];
      }
    }
  }

  /**
   Equal targets share a preimage: with distinct ids neither the order of part rows nor kinds and
   versions matter, whatever characters paths and ids hold.
   */
  lemma {:induction false} TreeHashOrderIndependent(t: Tree, u: Tree)
    requires DistinctTree(t) && DistinctTree(u) && SameTarget(t, u)
    ensures TreePreimage(t) == TreePreimage(u)
  {
    forall path | path in t.entities ensures BlockOf(path, t.entities[path]) == BlockOf(path, u.entities[path]) {
      BankToSheet(t.entities[path].parts, u.entities[path].parts);
    }
    SameBlocks(t, u);
  }

  lemma {:induction false} SameBlocks(t: Tree, u: Tree)
    requires t.entities.Keys == u.entities.Keys
    requires forall path :: path in t.entities ==> BlockOf(path, t.entities[path]) == BlockOf(path, u.entities[path])
    ensures TreePreimage(t) == TreePreimage(u)
  {
    BlocksPointwise(t, u, t.Paths());
  }

  // --- exactly when row order shows ------------------------------------------

  /** A part as its line shows it. */
  function Shown(p: Part): Part
  {
    p.(kind := "")
  }

  function AllShown(parts: seq<Part>): (r: seq<Part>)
    ensures |r| == |parts| && forall i :: 0 <= i < |parts| ==> r[i] == Shown(parts[i])
  {
    seq(|parts|, i requires 0 <= i < |parts| => Shown(parts[i]))
  }

  lemma {:induction false} ShownCons(first: Part, rest: seq<Part>)
    ensures AllShown([first] + rest) == [Shown(first)] + AllShown(rest)
  {
  }

  lemma {:induction false} InsertShown(sorted: seq<Part>, p: Part)
    ensures Insert(AllShown(sorted), Shown(p)) == AllShown(Insert(sorted, p))
  {
    if sorted != [] && !Less(p.id, sorted[0].id) {
      var first, rest := sorted[0], sorted[1..];
      InsertShown(rest, p);
      assert sorted == [first] + rest;
      ShownCons(first, rest);
      ShownCons(first, Insert(rest, p));
      assert AllShown(sorted)[0] == Shown(first) && AllShown(sorted)[1..] == AllShown(rest);
    } else {
      ShownCons(p, sorted);
    }
  }

  lemma {:induction false} SortShown(parts: seq<Part>)
    ensures SortById(AllShown(parts)) == AllShown(SortById(parts))
  {
    if parts != [] {
      var init, last := parts[..|parts| - 1], parts[|parts| - 1];
      SortShown(init);
      assert AllShown(parts)[..|parts| - 1] == AllShown(init);
      InsertShown(SortById(init), last);
    }
  }

  lemma {:induction false} LinesOfShown(parts: seq<Part>)
    ensures PartLines(SortById(AllShown(parts))) == PartLines(SortById(parts))
  {
    SortShown(parts);
    assert forall p: Part :: PartLine(Shown(p)) == PartLine(p);
  }

  lemma {:induction false} ShownRearranged(a: seq<Part>, b: seq<Part>)
    requires multiset(a) == multiset(b)
    ensures multiset(AllShown(a)) == multiset(AllShown(b))
    decreases |a|
  {
    if a == [] {
      assert |b| == |multiset(b)| == 0;
    } else {
      var n := |a| - 1;
      assert a[..n] + a[n + 1..] == a[..n];
      assert a[n] in multiset(b);
      var i :| 0 <= i < |b| && b[i] == a[n];
      WithoutOne(a, b, i);
      ShownRearranged(a[..n], b[..i] + b[i + 1..]);
      ShownOne(a, n);
      ShownOne(b, i);
    }
  }

  lemma {:induction false} ShownOne(parts: seq<Part>, i: nat)
    requires i < |parts|
    ensures multiset(AllShown(parts)) == multiset(AllShown(parts[..i] + parts[i + 1..])) + multiset{Shown(parts[i])}
  {
    var rest := AllShown(parts[..i] + parts[i + 1..]);
    assert AllShown(parts) == rest[..i] + [Shown(parts[i])] + rest[i..];
    assert rest == rest[..i] + rest[i..];
  }

  /** A consistent entity prints alike however its rows are arranged. */
  lemma {:induction false} ConsistentSheet(a: seq<Part>, b: seq<Part>)
    requires multiset(a) == multiset(b) && Consistent(a)
    ensures PartLines(SortById(a)) == PartLines(SortById(b))
  {
    var sa, sb := AllShown(a), AllShown(b);
    ShownRearranged(a, b);
    forall p, q | p in sa && q in sa && p.id == q.id ensures p == q {
      var i :| 0 <= i < |sa| && sa[i] == p;
      var j :| 0 <= j < |sa| && sa[j] == q;
      assert a[i] in a && a[j] in a;
    }
    RearrangedSame(sa, sb);
    SortExact(sa, sb);
    LinesOfShown(a);
    LinesOfShown(b);
  }

  /** The same entities but for the order of their part rows. */
  ghost predicate Rearranged(t: Tree, u: Tree)
  {
    && t.entities.Keys == u.entities.Keys
    && forall path :: path in t.entities ==>
         t.entities[path].disabled == u.entities[path].disabled && multiset(t.entities[path].parts) == multiset(u.entities[path].parts)
  }

  ghost predicate RowOrderHidden(t: Tree)
  {
    forall u :: Rearranged(t, u) ==> TreePreimage(u) == TreePreimage(t)
  }

  /** For all trees: the order of part rows never shows exactly when no entity gives one id two contents. */
  lemma {:induction false} RowOrderExact(t: Tree)
    ensures RowOrderHidden(t) <==> ConsistentTree(t)
  {
    if ConsistentTree(t) {
      forall u | Rearranged(t, u) ensures TreePreimage(u) == TreePreimage(t) {
        forall path | path in t.entities ensures BlockOf(path, t.entities[path]) == BlockOf(path, u.entities[path]) {
          ConsistentSheet(t.entities[path].parts, u.entities[path].parts);
        }
        SameBlocks(t, u);
      }
    }
    if RowOrderHidden(t) {
      forall path | path in t.entities ensures Consistent(t.entities[path].parts) {
        HiddenConsistent(t, path);
      }
    }
  }

  lemma {:induction false} HiddenConsistent(t: Tree, path: string)
    requires RowOrderHidden(t) && path in t.entities
    ensures Consistent(t.entities[path].parts)
  {
    var parts := t.entities[path].parts;
    var sorted := SortById(parts);
    SortStable(parts);
    SortedMembers(parts);
    forall p, q | p in parts && q in parts && p.id == q.id ensures p.content == q.content {
      var i :| 0 <= i < |sorted| && sorted[i] == p;
      var j :| 0 <= j < |sorted| && sorted[j] == q;
      if p.content != q.content {
        var k := AdjacentClash(sorted, (r: Part) => r.content, if i < j then i else j, if i < j then j else i);
        NeighboursHidden(t, path, k);
      }
    }
  }

  /** The tree with other rows for one entity. */
  function WithRows(t: Tree, path: string, parts: seq<Part>): Tree
    requires path in t.entities
  {
    Tree(t.entities[path := t.entities[path].(parts := parts)])
  }

  lemma {:induction false} OnlyRowsChange(t: Tree, path: string, parts: seq<Part>)
    requires path in t.entities && multiset(parts) == multiset(t.entities[path].parts)
    ensures Rearranged(t, WithRows(t, path, parts))
  {
  }

  /** If exchanging two neighbouring rows of one id does not show, they have one content. */
  lemma {:induction false} NeighboursHidden(t: Tree, path: string, k: nat)
    requires RowOrderHidden(t) && path in t.entities
    requires var sorted := SortById(t.entities[path].parts); k + 1 < |sorted| && sorted[k].id == sorted[k + 1].id
    ensures var sorted := SortById(t.entities[path].parts); sorted[k].content == sorted[k + 1].content
  {
    var parts := t.entities[path].parts;
    var sorted := SortById(parts);
    SortSorts(parts);
    SortStable(parts);
    ExchangedSame(sorted, k);
    ExchangedSorted(sorted, k);
    SortedFixed(Exchanged(sorted, k));
    OnlyRowsChange(t, path, Exchanged(sorted, k));
    ExchangeInTree(t, path, Exchanged(sorted, k));
    SheetShows(path, t.entities[path].disabled, sorted, k);
  }

  /** Other rows for one entity leave the preimage alone only if that entity prints alike. */
  lemma {:induction false} ExchangeInTree(t: Tree, path: string, parts: seq<Part>)
    requires path in t.entities && TreePreimage(t) == TreePreimage(WithRows(t, path, parts))
    ensures Terminated('\n', Lines(BlockOf(path, t.entities[path]))) == Terminated('\n', Lines(BlockOf(path, t.entities[path].(parts := parts))))
  {
    SortedKeysAscending(t.entities.Keys);
    ExchangeOver(t, path, parts, t.Paths());
  }

  lemma {:induction false} PreimageOver(t: Tree, paths: seq<string>)
    requires Ascending(paths) && forall p :: p in paths <==> p in t.entities
    ensures TreePreimage(t) == Terminated('\n', Render(BlocksOver(t, paths)))
  {
    BlocksAre(t, paths);
  }

  lemma {:induction false} RowsElsewhere(t: Tree, path: string, parts: seq<Part>)
    requires path in t.entities
    ensures var u := WithRows(t, path, parts);
            && u.entities.Keys == t.entities.Keys && u.entities[path] == t.entities[path].(parts := parts)
            && forall p :: p in t.entities && p != path ==> u.entities[p] == t.entities[p]
  {
  }

  lemma {:induction false} ExchangeOver(t: Tree, path: string, parts: seq<Part>, paths: seq<string>)
    requires Ascending(paths) && (forall p :: p in paths <==> p in t.entities)
    requires path in t.entities && TreePreimage(t) == TreePreimage(WithRows(t, path, parts))
    ensures Terminated('\n', Lines(BlockOf(path, t.entities[path]))) == Terminated('\n', Lines(BlockOf(path, t.entities[path].(parts := parts))))
  {
    RowsElsewhere(t, path, parts);
    PreimageOver(t, paths);
    PreimageOver(WithRows(t, path, parts), paths);
    EntityShows(t, WithRows(t, path, parts), paths, path);
  }

  lemma {:induction false} EntityShows(t: Tree, u: Tree, paths: seq<string>, path: string)
    requires Ascending(paths) && (forall p :: p in paths <==> p in t.entities) && t.entities.Keys == u.entities.Keys && path in t.entities
    requires forall p :: p in t.entities && p != path ==> u.entities[p] == t.entities[p]
    requires Terminated('\n', Render(BlocksOver(t, paths))) == Terminated('\n', Render(BlocksOver(u, paths)))
    ensures Terminated('\n', Lines(BlockOf(path, t.entities[path]))) == Terminated('\n', Lines(BlockOf(path, u.entities[path])))
  {
    var n :| 0 <= n < |paths| && paths[n] == path;
    OtherBlocks(t, u, paths, n);
    MiddleShows(BlocksOver(t, paths), BlocksOver(u, paths), n);
  }

  lemma {:induction false} OtherBlocks(t: Tree, u: Tree, paths: seq<string>, n: nat)
    requires Ascending(paths) && n < |paths| && forall p :: p in paths ==> p in t.entities && p in u.entities
    requires forall p :: p in paths && p != paths[n] ==> u.entities[p] == t.entities[p]
    ensures BlocksOver(t, paths)[..n] == BlocksOver(u, paths)[..n] && BlocksOver(t, paths)[n + 1..] == BlocksOver(u, paths)[n + 1..]
  {
    forall i | 0 <= i < |paths| && i != n ensures BlocksOver(t, paths)[i] == BlocksOver(u, paths)[i] {
      AscendingDistinct(paths, i, n);
      assert paths[i] in paths;
    }
  }

  /** Lists that differ in one block print alike only if that block prints alike. */
  lemma {:induction false} MiddleShows(a: seq<Block>, b: seq<Block>, n: nat)
    requires n < |a| == |b| && a[..n] == b[..n] && a[n + 1..] == b[n + 1..]
    requires Terminated('\n', Render(a)) == Terminated('\n', Render(b))
    ensures Terminated('\n', Lines(a[n])) == Terminated('\n', Lines(b[n]))
  {
    OneBlock(a, n);
    OneBlock(b, n);
    Cancel(Terminated('\n', Render(a[..n])), Terminated('\n', Lines(a[n])), Terminated('\n', Lines(b[n])), Terminated('\n', Render(a[n + 1..])));
  }

  lemma {:induction false} OneBlock(a: seq<Block>, n: nat)
    requires n < |a|
    ensures Terminated('\n', Render(a))
         == Terminated('\n', Render(a[..n])) + Terminated('\n', Lines(a[n])) + Terminated('\n', Render(a[n + 1..]))
  {
    RenderSplit(a, n, n + 1);
    assert a[n..n + 1] == [a[n]];
    RenderOne(a[n]);
    TerminatedAppend('\n', Render(a[..n]) + Lines(a[n]), Render(a[n + 1..]));
    TerminatedAppend('\n', Render(a[..n]), Lines(a[n]));
  }

  lemma {:induction false} Cancel(head: string, x: string, y: string, tail: string)
    requires head + x + tail == head + y + tail
    ensures x == y
  {
    assert |x| == |y|;
    assert x == (head + x + tail)[|head|..|head| + |x|] && y == (head + y + tail)[|head|..|head| + |y|];
  }

  lemma {:induction false} LinesSplit(parts: seq<Part>, k: nat)
    requires k + 1 < |parts|
    ensures var sheet := PartLines(parts);
            && sheet == sheet[..k] + [PartLine(parts[k]), PartLine(parts[k + 1])] + sheet[k + 2..]
            && PartLines(Exchanged(parts, k)) == sheet[..k] + [PartLine(parts[k + 1]), PartLine(parts[k])] + sheet[k + 2..]
  {
  }

  lemma {:induction false} SheetShows(path: string, flag: bool, sorted: seq<Part>, k: nat)
    requires k + 1 < |sorted| && sorted[k].id == sorted[k + 1].id
    requires Terminated('\n', Lines(Block(path, flag, PartLines(sorted)))) == Terminated('\n', Lines(Block(path, flag, PartLines(Exchanged(sorted, k)))))
    ensures sorted[k].content == sorted[k + 1].content
  {
    var sheet := PartLines(sorted);
    LinesSplit(sorted, k);
    MarkedSwap([path] + (if flag then [DISABLED] else []), sheet[..k], PartLine(sorted[k]), PartLine(sorted[k + 1]), sheet[k + 2..]);
    SameLineSameContent(sorted[k], sorted[k + 1]);
  }

  lemma {:induction false} MarkedSwap(mark: seq<string>, head: seq<string>, p: string, q: string, tail: seq<string>)
    requires |p| == |q| && Terminated('\n', mark + (head + [p, q] + tail)) == Terminated('\n', mark + (head + [q, p] + tail))
    ensures p == q
  {
    assert mark + (head + [p, q] + tail) == (mark + head) + [p, q] + tail;
    assert mark + (head + [q, p] + tail) == (mark + head) + [q, p] + tail;
    SwapShows(mark + head, p, q, tail);
  }

  lemma {:induction false} SwapShows(head: seq<string>, p: string, q: string, tail: seq<string>)
    requires |p| == |q| && Terminated('\n', head + [p, q] + tail) == Terminated('\n', head + [q, p] + tail)
    ensures p == q
  {
    PairOfLines(head, p, q, tail);
    PairOfLines(head, q, p, tail);
    var x, y := p + ['\n'] + q + ['\n'], q + ['\n'] + p + ['\n'];
    Cancel(Terminated('\n', head), x, y, Terminated('\n', tail));
    assert p == x[..|p|] && q == y[..|q|];
  }

  lemma {:induction false} PairOfLines(head: seq<string>, p: string, q: string, tail: seq<string>)
    ensures Terminated('\n', head + [p, q] + tail) == Terminated('\n', head) + (p + ['\n'] + q + ['\n']) + Terminated('\n', tail)
  {
    TerminatedAppend('\n', head + [p, q], tail);
    TerminatedAppend('\n', head, [p, q]);
    TwoLines(p, q);
  }

  lemma {:induction false} TwoLines(p: string, q: string)
    ensures Terminated('\n', [p, q]) == p + ['\n'] + q + ['\n']
  {
    TerminatedSnoc('\n', [p], q);
    TerminatedSnoc('\n', [], p);
    assert [] + [p] == [p] && [p] + [q] == [p, q];
  }

  lemma {:induction false} SameLineSameContent(p: Part, q: Part)
    requires p.id == q.id && PartLine(p) == PartLine(q)
    ensures p.content == q.content
  {
    assert ToPrefixed(p.content) == PartLine(p)[|p.id| + 1..] && ToPrefixed(q.content) == PartLine(q)[|q.id| + 1..];
    PrintInjective(p.content, q.content);
  }

  // --- exactly when the preimage fixes the target ----------------------------

  /** `p` is the last path before `disabled` in path order. */
  ghost predicate Predecessor(t: Tree, p: string)
  {
    && p in t.entities && Less(p, DISABLED)
    && forall q :: q in t.entities && Less(q, DISABLED) ==> q == p || Less(q, p)
  }

  /**
   The trees whose preimage another target shares. Without an entity called `disabled`: the last
   entity sorting before that name is disabled. With one: that entity has no parts, and the two
   are not both disabled.
   */
  ghost predicate AmbiguousAt(t: Tree, p: string)
    requires p in t.entities
  {
    if DISABLED in t.entities then
      t.entities[p].parts == [] && !(t.entities[p].disabled && t.entities[DISABLED].disabled)
    else t.entities[p].disabled
  }

  ghost predicate Ambiguous(t: Tree)
  {
    exists p :: Predecessor(t, p) && AmbiguousAt(t, p)
  }

  lemma {:induction false} EmptySheet(parts: seq<Part>)
    ensures PartLines(SortById(parts)) == [] <==> parts == []
  {
    SortedMembers(parts);
  }

  /** The paths of a tree, as its block list shows them. */
  lemma {:induction false} PathInBlocks(t: Tree, paths: seq<string>, q: string)
    requires (forall p :: p in paths ==> p in t.entities) && q in paths
    ensures exists k :: 0 <= k < |paths| && paths[k] == q && BlocksOver(t, paths)[k] == BlockOf(q, t.entities[q])
  {
    var k :| 0 <= k < |paths| && paths[k] == q;
    assert BlocksOver(t, paths)[k] == BlockOf(q, t.entities[q]);
  }

  /** The flagged side of a refold is ambiguous. */
  lemma {:induction false} FlaggedIsAmbiguous(t: Tree, paths: seq<string>, b: seq<Block>, n: nat)
    requires (forall p :: p in paths <==> p in t.entities) && Ascending(paths)
    requires WellFormed(b) && RefoldAt(BlocksOver(t, paths), b, n)
    ensures Ambiguous(t)
  {
    var a, p := BlocksOver(t, paths), paths[n];
    assert p in paths;
    assert a[n] == BlockOf(p, t.entities[p]) && Less(b[n].path, b[n + 1].path);
    EmptySheet(t.entities[p].parts);
    forall q | q in t.entities && Less(q, DISABLED) ensures q == p || Less(q, p) {
      var k :| 0 <= k < |paths| && paths[k] == q;
      if k > n {
        LaterIsAbove(a, b, n, k);
        LessAsymmetric(q, DISABLED);
        assert false;
      }
    }
    if b[n + 1].flag {
      assert a[n + 1] == BlockOf(paths[n + 1], t.entities[paths[n + 1]]);
      assert paths[n + 1] == DISABLED && paths[n + 1] in paths;
    } else {
      NoEntityCalledDisabled(a, b, n);
      if DISABLED in t.entities {
        PathInBlocks(t, paths, DISABLED);
        assert false;
      }
    }
    assert Predecessor(t, p) && AmbiguousAt(t, p);
  }

  lemma {:induction false} NoEntityCalledDisabled(a: seq<Block>, b: seq<Block>, n: nat)
    requires WellFormed(b) && RefoldAt(a, b, n) && !b[n + 1].flag
    ensures forall k :: 0 <= k < |a| ==> a[k].path != DISABLED
  {
    LessIrreflexive(DISABLED);
    forall k | 0 <= k < |a| ensures a[k].path != DISABLED {
      if k < n {
        assert a[k] == a[..n][k] == b[..n][k] == b[k];
        assert Less(b[k].path, b[n + 1].path);
      } else if k == n {
        assert Less(b[n].path, b[n + 1].path);
      } else {
        assert a[k] == a[n + 1..][k - n - 1] == b[n + 2..][k - n - 1] == b[k + 1];
        assert Less(b[n + 1].path, b[k + 1].path);
      }
    }
  }

  lemma {:induction false} LaterIsAbove(a: seq<Block>, b: seq<Block>, n: nat, k: nat)
    requires WellFormed(b) && RefoldAt(a, b, n) && n < k < |a|
    ensures a[k].path == DISABLED || Less(DISABLED, a[k].path)
  {
    if b[n + 1].flag {
      if k > n + 1 {
        assert a[k] == a[n + 2..][k - n - 2] == b[n + 2..][k - n - 2] == b[k];
        assert Less(b[n + 1].path, b[k].path);
      }
    } else {
      assert a[k] == a[n + 1..][k - n - 1] == b[n + 2..][k - n - 1] == b[k + 1];
      assert Less(b[n + 1].path, b[k + 1].path);
    }
  }

  /** The unflagged side, which has the entity called `disabled`, is ambiguous too. */
  lemma {:induction false} UnflaggedIsAmbiguous(t: Tree, paths: seq<string>, a: seq<Block>, n: nat)
    requires (forall p :: p in paths <==> p in t.entities) && Ascending(paths)
    requires RefoldAt(a, BlocksOver(t, paths), n)
    ensures Ambiguous(t)
  {
    var b, p := BlocksOver(t, paths), paths[n];
    assert p in paths && paths[n + 1] in paths;
    assert b[n] == BlockOf(p, t.entities[p]) && b[n + 1] == BlockOf(paths[n + 1], t.entities[paths[n + 1]]);
    EmptySheet(t.entities[p].parts);
    assert paths[n + 1] == DISABLED && Less(p, DISABLED);
    forall q | q in t.entities && Less(q, DISABLED) ensures q == p || Less(q, p) {
      BelowNext(paths, n, q);
    }
    assert Predecessor(t, p) && AmbiguousAt(t, p);
  }

  /** In an ascending list, what is below an element is its predecessor or below that. */
  lemma {:induction false} BelowNext(paths: seq<string>, n: nat, q: string)
    requires Ascending(paths) && n + 1 < |paths| && q in paths && Less(q, paths[n + 1])
    ensures q == paths[n] || Less(q, paths[n])
  {
    var k :| 0 <= k < |paths| && paths[k] == q;
    if k == n + 1 {
      LessIrreflexive(q);
    } else if k > n + 1 {
      LessAsymmetric(paths[n + 1], q);
    }
  }

  /** Two different targets with one preimage are both ambiguous, and one of them has an entity called `disabled`. */
  lemma {:induction false} CollisionIsAmbiguous(t: Tree, u: Tree)
    requires CleanTree(t) && CleanTree(u) && TreePreimage(t) == TreePreimage(u) && !SameTarget(t, u)
    ensures Ambiguous(t)
    ensures DISABLED in t.entities || DISABLED in u.entities
  {
    PreimageIsRendering(t, u);
    BlocksExact(t, u);
    RenderNearlyInjective(Blocks(t), Blocks(u));
    SortedKeysAscending(t.entities.Keys);
    if Refold(Blocks(t), Blocks(u)) {
      var n: nat :| RefoldAt(Blocks(t), Blocks(u), n);
      FlaggedIsAmbiguous(t, t.Paths(), Blocks(u), n);
      assert u.Paths()[n + 1] in u.Paths();
    } else {
      var n: nat :| RefoldAt(Blocks(u), Blocks(t), n);
      UnflaggedIsAmbiguous(t, t.Paths(), Blocks(u), n);
      assert t.Paths()[n + 1] in t.Paths();
    }
  }

  /** Among trees without an entity called `disabled`, the preimage determines the target. */
  lemma {:induction false} TreeHashCanonical(t: Tree, u: Tree)
    requires CleanTree(t) && CleanTree(u) && DISABLED !in t.entities && DISABLED !in u.entities
    ensures TreePreimage(t) == TreePreimage(u) <==> SameTarget(t, u)
  {
    if SameTarget(t, u) {
      TreeHashOrderIndependent(t, u);
    } else if TreePreimage(t) == TreePreimage(u) {
      CollisionIsAmbiguous(t, u);
    }
  }

  // --- every ambiguous tree does collide -------------------------------------

  lemma {:induction false} RenderAppend(a: seq<Block>, b: seq<Block>)
    ensures Render(a + b) == Render(a) + Render(b)
  {
    assert BlockLines(a + b) == BlockLines(a) + BlockLines(b);
    FlattenAppend(BlockLines(a), BlockLines(b));
  }

  lemma {:induction false} RenderOne(b: Block)
    ensures Render([b]) == Lines(b)
  {
    assert [b] == [b] + [];
    RenderCons(b, []);
    assert Render([]) == [];
  }

  lemma {:induction false} RenderPair(x: Block, y: Block)
    ensures Render([x, y]) == Lines(x) + Lines(y)
  {
    assert [x, y] == [x] + [y];
    RenderCons(x, [y]);
    RenderOne(y);
  }

  lemma {:induction false} RenderSplit(b: seq<Block>, n: nat, k: nat)
    requires n <= k <= |b|
    ensures Render(b) == Render(b[..n]) + Render(b[n..k]) + Render(b[k..])
  {
    assert b == b[..k] + b[k..] && b[..k] == b[..n] + b[n..k];
    RenderAppend(b[..k], b[k..]);
    RenderAppend(b[..n], b[n..k]);
  }

  lemma {:induction false} FoldedLines(x: Block, y: Block, d: Block)
    requires x.path == y.path && x.flag && !y.flag && y.sheet == [] && d == Block(DISABLED, false, x.sheet)
    ensures Render([x]) == Render([y, d])
  {
    RenderOne(x);
    RenderPair(y, d);
  }

  lemma {:induction false} TradedLines(x: Block, c: Block, y: Block, d: Block)
    requires x.path == y.path && x.flag && !y.flag && x.sheet == [] && y.sheet == []
    requires c == Block(DISABLED, false, d.sheet) && d.path == DISABLED && d.flag
    ensures Render([x, c]) == Render([y, d])
  {
    RenderPair(x, c);
    RenderPair(y, d);
  }

  /** A refold prints the same lines. */
  lemma {:induction false} RefoldRenders(a: seq<Block>, b: seq<Block>, n: nat)
    requires RefoldAt(a, b, n)
    ensures Render(a) == Render(b)
  {
    if b[n + 1].flag {
      assert a[n..n + 2] == [a[n], a[n + 1]] && b[n..n + 2] == [b[n], b[n + 1]];
      TradedLines(a[n], a[n + 1], b[n], b[n + 1]);
      SameMiddle(a, n, n + 2, b, n + 2);
    } else {
      assert a[n..n + 1] == [a[n]] && b[n..n + 2] == [b[n], b[n + 1]];
      FoldedLines(a[n], b[n], b[n + 1]);
      SameMiddle(a, n, n + 1, b, n + 2);
    }
  }

  /** Lists with the same ends, and middles that print the same, print the same. */
  lemma {:induction false} SameMiddle(a: seq<Block>, n: nat, k: nat, b: seq<Block>, m: nat)
    requires n <= k <= |a| && n <= m <= |b| && a[..n] == b[..n] && a[k..] == b[m..] && Render(a[n..k]) == Render(b[n..m])
    ensures Render(a) == Render(b)
  {
    RenderSplit(a, n, k);
    RenderSplit(b, n, m);
  }

  lemma {:induction false} PredecessorIndex(t: Tree, paths: seq<string>, p: string) returns (n: nat)
    requires (forall q :: q in paths <==> q in t.entities) && Ascending(paths) && Predecessor(t, p)
    ensures n < |paths| && paths[n] == p
    ensures forall k :: n < k < |paths| ==> paths[k] == DISABLED || Less(DISABLED, paths[k])
  {
    n :| 0 <= n < |paths| && paths[n] == p;
    forall k | n < k < |paths| ensures paths[k] == DISABLED || Less(DISABLED, paths[k]) {
      assert paths[k] in paths;
      LessAsymmetric(p, paths[k]);
      LessTotal(paths[k], DISABLED);
    }
  }

  lemma {:induction false} SameRendering(t: Tree, u: Tree, n: nat)
    requires RefoldAt(Blocks(t), Blocks(u), n) || RefoldAt(Blocks(u), Blocks(t), n)
    ensures TreePreimage(t) == TreePreimage(u)
  {
    if RefoldAt(Blocks(t), Blocks(u), n) {
      RefoldRenders(Blocks(t), Blocks(u), n);
    } else {
      RefoldRenders(Blocks(u), Blocks(t), n);
    }
  }

  /** Blocks of a tree with its paths given. */
  lemma {:induction false} BlocksAre(t: Tree, paths: seq<string>)
    requires Ascending(paths) && forall q :: q in paths <==> q in t.entities
    ensures t.Paths() == paths && Blocks(t) == BlocksOver(t, paths)
  {
    SortedKeysAscending(t.entities.Keys);
    AscendingUnique(t.Paths(), paths);
  }

  lemma {:induction false} NoParts()
    ensures PartLines(SortById([])) == []
  {
    assert SortById([]) == [];
  }

  function Unfolded(t: Tree, p: string): Tree
    requires p in t.entities
  {
    var e := t.entities[p];
    Tree(t.entities[p := e.(disabled := false, parts := [])][DISABLED := e.(disabled := false)])
  }

  lemma {:induction false} DisabledIsClean()
    ensures '\n' !in DISABLED && '\0' !in DISABLED
  {
  }

  lemma {:induction false} UnfoldedClean(t: Tree, p: string)
    requires CleanTree(t) && p in t.entities
    ensures CleanTree(Unfolded(t, p))
  {
    DisabledIsClean();
  }

  /** A disabled entity unfolds into a bare one followed by an entity called `disabled` with its parts. */
  lemma {:induction false} Unfold(t: Tree, p: string)
    requires CleanTree(t) && Predecessor(t, p) && DISABLED !in t.entities && t.entities[p].disabled
    ensures TreePreimage(t) == TreePreimage(Unfolded(t, p)) && !SameTarget(t, Unfolded(t, p))
  {
    var paths := t.Paths();
    SortedKeysAscending(t.entities.Keys);
    var n := PredecessorIndex(t, paths, p);
    UnfoldAt(t, paths, p, n);
    SameRendering(t, Unfolded(t, p), n);
  }

  lemma {:induction false} UnfoldAt(t: Tree, paths: seq<string>, p: string, n: nat)
    requires Ascending(paths) && (forall q :: q in paths <==> q in t.entities) && n < |paths| && paths[n] == p
    requires Less(p, DISABLED) && DISABLED !in t.entities && t.entities[p].disabled
    requires forall k :: n < k < |paths| ==> paths[k] == DISABLED || Less(DISABLED, paths[k])
    ensures RefoldAt(Blocks(t), Blocks(Unfolded(t, p)), n)
  {
    var u := Unfolded(t, p);
    var up := paths[..n + 1] + [DISABLED] + paths[n + 1..];
    UnfoldPaths(t, paths, n, up);
    UnfoldedMembers(paths, n, DISABLED, up);
    LessIrreflexive(DISABLED);
    UnfoldedEntities(t, p);
    BlocksAre(t, paths);
    BlocksAre(u, up);
    UnfoldBlocks(t, u, paths, up, p, n);
  }

  lemma {:induction false} UnfoldedMembers(paths: seq<string>, n: nat, extra: string, up: seq<string>)
    requires n < |paths| && up == paths[..n + 1] + [extra] + paths[n + 1..]
    ensures forall q :: q in up <==> q == extra || q in paths
  {
    assert paths == paths[..n + 1] + paths[n + 1..];
  }

  lemma {:induction false} UnfoldedEntities(t: Tree, p: string)
    requires p in t.entities && DISABLED !in t.entities
    ensures var u := Unfolded(t, p);
            && u.entities.Keys == t.entities.Keys + {DISABLED}
            && (forall q :: q in t.entities && q != p ==> u.entities[q] == t.entities[q])
            && u.entities[p] == t.entities[p].(disabled := false, parts := [])
            && u.entities[DISABLED] == t.entities[p].(disabled := false)
  {
  }

  lemma {:induction false} UnfoldPaths(t: Tree, paths: seq<string>, n: nat, up: seq<string>)
    requires Ascending(paths) && n < |paths| && Less(paths[n], DISABLED) && DISABLED !in paths
    requires forall k :: n < k < |paths| ==> paths[k] == DISABLED || Less(DISABLED, paths[k])
    requires up == paths[..n + 1] + [DISABLED] + paths[n + 1..]
    ensures Ascending(up)
  {
    forall i, j | 0 <= i < j < |up| ensures Less(up[i], up[j]) {
      if j == n + 1 {
        if i < n {
          LessTransitive(paths[i], paths[n], DISABLED);
        }
      } else if i == n + 1 {
        assert up[j] == paths[j - 1] && paths[j - 1] in paths;
      } else {
        assert up[i] == paths[if i <= n then i else i - 1];
        assert up[j] == paths[if j <= n then j else j - 1];
      }
    }
  }

  lemma {:induction false} UnfoldBlocks(t: Tree, u: Tree, paths: seq<string>, up: seq<string>, p: string, n: nat)
    requires (forall q :: q in paths ==> q in t.entities) && (forall q :: q in up ==> q in u.entities)
    requires n < |paths| && paths[n] == p && up == paths[..n + 1] + [DISABLED] + paths[n + 1..]
    requires Ascending(up) && p in t.entities && t.entities[p].disabled
    requires forall q :: q in paths && q != p ==> u.entities[q] == t.entities[q]
    requires u.entities[p] == t.entities[p].(disabled := false, parts := [])
    requires u.entities[DISABLED] == t.entities[p].(disabled := false)
    ensures RefoldAt(BlocksOver(t, paths), BlocksOver(u, up), n)
  {
    var a, b := BlocksOver(t, paths), BlocksOver(u, up);
    NoParts();
    forall i | 0 <= i < |up| && i != n && i != n + 1 ensures b[i] == a[if i < n then i else i - 1] {
      var k := if i < n then i else i - 1;
      assert up[i] == paths[k] && paths[k] in paths;
      if up[i] == p {
        AscendingDistinct(up, i, n);
      }
    }
    assert a[..n] == b[..n] && a[n + 1..] == b[n + 2..];
  }

  function Traded(t: Tree, p: string): Tree
    requires p in t.entities && DISABLED in t.entities
  {
    var e, d := t.entities[p], t.entities[DISABLED];
    Tree(t.entities[p := e.(disabled := d.disabled)][DISABLED := d.(disabled := e.disabled)])
  }

  /** A bare entity and an entity called `disabled`, exactly one of them disabled, can trade the flag. */
  lemma {:induction false} TradeFlags(t: Tree, p: string)
    requires CleanTree(t) && Predecessor(t, p) && DISABLED in t.entities && t.entities[p].parts == []
    requires t.entities[p].disabled != t.entities[DISABLED].disabled
    ensures TreePreimage(t) == TreePreimage(Traded(t, p)) && !SameTarget(t, Traded(t, p))
  {
    var u := Traded(t, p);
    TradedEntities(t, p);
    SortedKeysAscending(t.entities.Keys);
    TradePaths(t, u, t.Paths(), p);
  }

  lemma {:induction false} TradedEntities(t: Tree, p: string)
    requires Predecessor(t, p) && DISABLED in t.entities && t.entities[p].disabled != t.entities[DISABLED].disabled
    ensures var u := Traded(t, p);
            && p != DISABLED && u.entities.Keys == t.entities.Keys
            && (forall q :: q in t.entities && q != p && q != DISABLED ==> u.entities[q] == t.entities[q])
            && u.entities[p] == t.entities[p].(disabled := t.entities[DISABLED].disabled)
            && u.entities[DISABLED] == t.entities[DISABLED].(disabled := t.entities[p].disabled)
            && !SameTarget(t, u)
  {
    LessIrreflexive(DISABLED);
  }

  lemma {:induction false} TradePaths(t: Tree, u: Tree, paths: seq<string>, p: string)
    requires Ascending(paths) && (forall q :: q in paths <==> q in t.entities) && t.entities.Keys == u.entities.Keys
    requires Predecessor(t, p) && p != DISABLED && DISABLED in t.entities && t.entities[p].parts == []
    requires t.entities[p].disabled != t.entities[DISABLED].disabled
    requires forall q :: q in t.entities && q != p && q != DISABLED ==> u.entities[q] == t.entities[q]
    requires u.entities[p] == t.entities[p].(disabled := t.entities[DISABLED].disabled)
    requires u.entities[DISABLED] == t.entities[DISABLED].(disabled := t.entities[p].disabled)
    ensures TreePreimage(t) == TreePreimage(u)
  {
    BlocksAre(t, paths);
    BlocksAre(u, paths);
    TradeAt(t, u, paths, p);
    var n: nat :| RefoldAt(BlocksOver(t, paths), BlocksOver(u, paths), n) || RefoldAt(BlocksOver(u, paths), BlocksOver(t, paths), n);
    SameRendering(t, u, n);
  }

  lemma {:induction false} TradeAt(t: Tree, u: Tree, paths: seq<string>, p: string)
    requires Ascending(paths) && (forall q :: q in paths <==> q in t.entities) && t.entities.Keys == u.entities.Keys
    requires Predecessor(t, p) && p != DISABLED && DISABLED in t.entities && t.entities[p].parts == []
    requires t.entities[p].disabled != t.entities[DISABLED].disabled
    requires forall q :: q in paths && q != p && q != DISABLED ==> u.entities[q] == t.entities[q]
    requires u.entities[p] == t.entities[p].(disabled := t.entities[DISABLED].disabled)
    requires u.entities[DISABLED] == t.entities[DISABLED].(disabled := t.entities[p].disabled)
    ensures exists n: nat ::
      RefoldAt(BlocksOver(t, paths), BlocksOver(u, paths), n) || RefoldAt(BlocksOver(u, paths), BlocksOver(t, paths), n)
  {
    var n := PredecessorIndex(t, paths, p);
    DisabledIsNext(paths, n);
    TradeBlocks(t, u, paths, p, n);
  }

  lemma {:induction false} TradedClean(t: Tree, p: string)
    requires CleanTree(t) && p in t.entities && DISABLED in t.entities
    ensures CleanTree(Traded(t, p))
  {
  }

  lemma {:induction false} DisabledIsNext(paths: seq<string>, n: nat)
    requires Ascending(paths) && n < |paths| && Less(paths[n], DISABLED) && DISABLED in paths
    requires forall k :: n < k < |paths| ==> paths[k] == DISABLED || Less(DISABLED, paths[k])
    ensures n + 1 < |paths| && paths[n + 1] == DISABLED
  {
    var k :| 0 <= k < |paths| && paths[k] == DISABLED;
    LessIrreflexive(DISABLED);
    assert !(k <= n) by {
      if k < n {
        LessTransitive(paths[k], paths[n], DISABLED);
      }
    }
    assert !(k > n + 1) by {
      if k > n + 1 && Less(DISABLED, paths[n + 1]) {
        LessTransitive(DISABLED, paths[n + 1], paths[k]);
      }
    }
  }

  lemma {:induction false} TradeBlocks(t: Tree, u: Tree, paths: seq<string>, p: string, n: nat)
    requires Ascending(paths) && (forall q :: q in paths <==> q in t.entities) && t.entities.Keys == u.entities.Keys
    requires n + 1 < |paths| && paths[n] == p && paths[n + 1] == DISABLED && p != DISABLED
    requires t.entities[p].parts == [] && t.entities[p].disabled != t.entities[DISABLED].disabled
    requires forall q :: q in paths && q != p && q != DISABLED ==> u.entities[q] == t.entities[q]
    requires u.entities[p] == t.entities[p].(disabled := t.entities[DISABLED].disabled)
    requires u.entities[DISABLED] == t.entities[DISABLED].(disabled := t.entities[p].disabled)
    ensures var a, b := BlocksOver(t, paths), BlocksOver(u, paths);
            RefoldAt(a, b, n) || RefoldAt(b, a, n)
  {
    var a, b := BlocksOver(t, paths), BlocksOver(u, paths);
    assert p in paths && DISABLED in paths;
    NoParts();
    assert a[n] == Block(p, t.entities[p].disabled, []) && b[n] == Block(p, !t.entities[p].disabled, []);
    assert a[n + 1].path == b[n + 1].path == DISABLED && a[n + 1].sheet == b[n + 1].sheet;
    forall i | 0 <= i < |paths| && i != n && i != n + 1 ensures a[i] == b[i] {
      assert paths[i] in paths;
      AscendingDistinct(paths, i, n);
      AscendingDistinct(paths, i, n + 1);
    }
    TradeRefold(a, b, n);
  }

  lemma {:induction false} TradeRefold(a: seq<Block>, b: seq<Block>, n: nat)
    requires |a| == |b| && n + 1 < |a| && forall i :: 0 <= i < |a| && i != n && i != n + 1 ==> a[i] == b[i]
    requires a[n].path == b[n].path && a[n].sheet == [] && b[n].sheet == [] && a[n].flag != b[n].flag
    requires a[n + 1].path == DISABLED && b[n + 1] == Block(DISABLED, a[n].flag, a[n + 1].sheet) && a[n + 1].flag == b[n].flag
    ensures RefoldAt(a, b, n) || RefoldAt(b, a, n)
  {
    assert a[..n] == b[..n] && a[n + 2..] == b[n + 2..];
    if a[n].flag {
      assert RefoldAt(a, b, n);
    } else {
      assert RefoldAt(b, a, n);
    }
  }

  function FoldedUp(t: Tree, p: string): Tree
    requires DISABLED in t.entities
  {
    Tree(map q | q in t.entities && q != DISABLED ::
      if q == p then t.entities[DISABLED].(disabled := true) else t.entities[q])
  }

  lemma {:induction false} FoldedClean(t: Tree, p: string)
    requires CleanTree(t) && DISABLED in t.entities
    ensures CleanTree(FoldedUp(t, p))
  {
  }

  /** A bare enabled entity followed by an enabled one called `disabled` folds into one disabled entity. */
  lemma {:induction false} FoldUp(t: Tree, p: string)
    requires CleanTree(t) && Predecessor(t, p) && DISABLED in t.entities && t.entities[p].parts == []
    requires !t.entities[p].disabled && !t.entities[DISABLED].disabled
    ensures TreePreimage(t) == TreePreimage(FoldedUp(t, p)) && !SameTarget(t, FoldedUp(t, p))
  {
    var u, paths := FoldedUp(t, p), t.Paths();
    SortedKeysAscending(t.entities.Keys);
    var n := PredecessorIndex(t, paths, p);
    DisabledIsNext(paths, n);
    var up := paths[..n + 1] + paths[n + 2..];
    FoldPaths(paths, up, n);
    LessIrreflexive(DISABLED);
    BlocksAre(t, paths);
    BlocksAre(u, up);
    FoldBlocks(t, u, paths, up, p, n);
    SameRendering(t, u, n);
  }

  lemma {:induction false} FoldPaths(paths: seq<string>, up: seq<string>, n: nat)
    requires Ascending(paths) && n + 1 < |paths| && paths[n + 1] == DISABLED && up == paths[..n + 1] + paths[n + 2..]
    ensures Ascending(up) && forall q :: q in up <==> q in paths && q != DISABLED
  {
    assert forall i :: 0 <= i < |up| ==> up[i] == paths[if i <= n then i else i + 1];
    assert paths == paths[..n + 1] + [DISABLED] + paths[n + 2..];
    assert forall q :: q in paths <==> q in up || q == DISABLED;
    if DISABLED in up {
      var i :| 0 <= i < |up| && up[i] == DISABLED;
      AscendingDistinct(paths, if i <= n then i else i + 1, n + 1);
    }
  }

  lemma {:induction false} FoldBlocks(t: Tree, u: Tree, paths: seq<string>, up: seq<string>, p: string, n: nat)
    requires (forall q :: q in paths ==> q in t.entities) && (forall q :: q in up ==> q in u.entities)
    requires n + 1 < |paths| && paths[n] == p && paths[n + 1] == DISABLED && up == paths[..n + 1] + paths[n + 2..]
    requires Ascending(up) && p in t.entities && DISABLED in t.entities && p in u.entities
    requires t.entities[p].parts == [] && !t.entities[p].disabled && !t.entities[DISABLED].disabled
    requires forall q :: q in up && q != p ==> q in t.entities && u.entities[q] == t.entities[q]
    requires u.entities[p] == t.entities[DISABLED].(disabled := true)
    ensures RefoldAt(BlocksOver(u, up), BlocksOver(t, paths), n)
  {
    var a, b := BlocksOver(u, up), BlocksOver(t, paths);
    NoParts();
    forall i | 0 <= i < |up| && i != n ensures a[i] == b[if i < n then i else i + 1] {
      var k := if i < n then i else i + 1;
      assert up[i] == paths[k] && up[i] in up;
      if up[i] == p {
        AscendingDistinct(up, i, n);
      }
    }
    assert a[..n] == b[..n] && a[n + 1..] == b[n + 2..];
  }

  /** The preimage of a clean tree belongs to another target exactly when the tree is ambiguous. */
  lemma {:induction false} TreeHashExact(t: Tree)
    requires CleanTree(t)
    ensures (exists u :: CleanTree(u) && TreePreimage(u) == TreePreimage(t) && !SameTarget(t, u)) <==> Ambiguous(t)
  {
    if u :| CleanTree(u) && TreePreimage(u) == TreePreimage(t) && !SameTarget(t, u) {
      CollisionIsAmbiguous(t, u);
    }
    if Ambiguous(t) {
      var p :| Predecessor(t, p) && AmbiguousAt(t, p);
      if DISABLED !in t.entities {
        UnfoldedClean(t, p);
        Unfold(t, p);
      } else if t.entities[p].disabled != t.entities[DISABLED].disabled {
        TradedClean(t, p);
        TradeFlags(t, p);
      } else {
        FoldedClean(t, p);
        FoldUp(t, p);
      }
    }
  }

  // --- without the condition on characters -----------------------------------

  /** An enabled entity without parts. */
  const BARE: Entity := Entity("", None, None, [], false, None)

  lemma {:induction false} BareOver(t: Tree, path: string)
    requires path in t.entities && !t.entities[path].disabled && t.entities[path].parts == []
    ensures Terminated('\n', Render(BlocksOver(t, [path]))) == path + ['\n']
  {
    NoParts();
    var b := Block(path, false, []);
    assert BlocksOver(t, [path]) == [b];
    RenderOne(b);
    OneLine(path);
  }

  lemma {:induction false} OneLine(path: string)
    ensures Terminated('\n', Lines(Block(path, false, []))) == path + ['\n']
  {
    assert Lines(Block(path, false, [])) == [] + [path];
    TerminatedSnoc('\n', [], path);
  }

  /** A single bare entity prints as its path. */
  lemma {:induction false} BarePreimage(t: Tree, path: string)
    requires t.entities.Keys == {path} && !t.entities[path].disabled && t.entities[path].parts == []
    ensures TreePreimage(t) == path + ['\n']
  {
    assert path in t.entities;
    BlocksAre(t, [path]);
    BareOver(t, path);
  }

  lemma {:induction false} PathsNonEmpty(t: Tree)
    requires t.entities != map[]
    ensures Blocks(t) != []
  {
    var p :| p in t.entities;
    assert p in t.Paths();
  }

  lemma {:induction false} LinesEnd(lines: seq<string>)
    requires lines != []
    ensures var s := Terminated('\n', lines); s != [] && s == s[..|s| - 1] + ['\n']
  {
    var n := |lines| - 1;
    assert lines == lines[..n] + [lines[n]];
    TerminatedSnoc('\n', lines[..n], lines[n]);
  }

  lemma {:induction false} RenderHasLines(bs: seq<Block>)
    requires bs != []
    ensures Render(bs) != []
  {
    var n := |bs| - 1;
    assert bs == bs[..n] + [bs[n]];
    RenderAppend(bs[..n], [bs[n]]);
    RenderOne(bs[n]);
  }

  lemma {:induction false} PreimageEnds(t: Tree)
    requires t.entities != map[]
    ensures var pre := TreePreimage(t); pre != [] && pre == pre[..|pre| - 1] + ['\n']
  {
    PathsNonEmpty(t);
    RenderHasLines(Blocks(t));
    LinesEnd(Render(Blocks(t)));
  }

  /**
   If paths could hold newlines, every tree but the empty one would share its preimage with a single
   bare entity, whose path is all the lines of the tree at once: another target unless the tree was
   a single bare entity already.
   */
  lemma {:induction false} PathNewlineCollides(t: Tree)
    requires t.entities != map[]
    ensures var pre := TreePreimage(t);
            pre != [] && var u := Tree(map[pre[..|pre| - 1] := BARE]);
            && TreePreimage(u) == pre
            && (SameTarget(t, u) <==> exists p :: t.entities.Keys == {p} && !t.entities[p].disabled && t.entities[p].parts == [])
  {
    PreimageEnds(t);
    var pre := TreePreimage(t);
    var path := pre[..|pre| - 1];
    var u := Tree(map[path := BARE]);
    BarePreimage(u, path);
    SameAsBare(t, path);
    if p :| t.entities.Keys == {p} && !t.entities[p].disabled && t.entities[p].parts == [] {
      BarePreimage(t, p);
    }
  }

  lemma {:induction false} SameAsBare(t: Tree, path: string)
    ensures SameTarget(t, Tree(map[path := BARE]))
            <==> t.entities.Keys == {path} && !t.entities[path].disabled && t.entities[path].parts == []
  {
    var u := Tree(map[path := BARE]);
    assert u.entities.Keys == {path} && Bank(u.entities[path].parts) == map[];
    if t.entities.Keys == {path} {
      assert path in t.entities && path in u.entities;
      BankKeys(t.entities[path].parts);
      assert t.entities[path].parts != [] ==> t.entities[path].parts[0].id in Ids(t.entities[path].parts);
    }
  }

  // --- the text itself -------------------------------------------------------

  lemma {:induction false} PathsLast(t: Tree, path: string, e: Entity)
    requires forall q :: q in t.entities ==> Less(q, path)
    ensures Tree(t.entities[path := e]).Paths() == t.Paths() + [path]
  {
    var u := Tree(t.entities[path := e]);
    SortedKeysAscending(t.entities.Keys);
    SortedKeysAscending(u.entities.Keys);
    AscendingUnique(u.Paths(), t.Paths() + [path]);
  }

  lemma {:induction false} PreimageLast(t: Tree, path: string, e: Entity)
    requires forall q :: q in t.entities ==> Less(q, path)
    ensures TreePreimage(Tree(t.entities[path := e])) == TreePreimage(t) + Terminated('\n', Lines(BlockOf(path, e)))
  {
    PathsLast(t, path, e);
    LessIrreflexive(path);
    BlocksLast(t, Tree(t.entities[path := e]), t.Paths(), path);
    RenderLast(Blocks(t), BlockOf(path, e));
  }

  lemma {:induction false} RenderLast(bs: seq<Block>, b: Block)
    ensures Terminated('\n', Render(bs + [b])) == Terminated('\n', Render(bs)) + Terminated('\n', Lines(b))
  {
    assert BlockLines(bs + [b]) == BlockLines(bs) + [Lines(b)];
    FlattenSnoc(BlockLines(bs), Lines(b));
    TerminatedAppend('\n', Render(bs), Lines(b));
  }

  lemma {:induction false} BlocksLast(t: Tree, u: Tree, paths: seq<string>, path: string)
    requires (forall p :: p in paths ==> p in t.entities && p in u.entities && t.entities[p] == u.entities[p]) && path in u.entities
    ensures BlocksOver(u, paths + [path]) == BlocksOver(t, paths) + [BlockOf(path, u.entities[path])]
  {
  }

  /**
   The text of a tree, entity by entity and part by part: an entity that comes last by path adds its
   path line and, if it is disabled, the bare flag line; a part of it that comes last by id adds one
   line with its id and printed content, NUL between them.
   */
  lemma {:induction false} TreeText(t: Tree, path: string, e: Entity, p: Part)
    requires forall q :: q in t.entities ==> Less(q, path)
    requires forall i :: 0 <= i < |e.parts| ==> !Less(p.id, e.parts[i].id)
    ensures t.entities == map[] ==> TreePreimage(t) == ""
    ensures e.parts == [] ==> TreePreimage(Tree(t.entities[path := e])) == TreePreimage(t) + (path + "\n" + if e.disabled then DISABLED + "\n" else "")
    ensures TreePreimage(Tree(t.entities[path := e.(parts := e.parts + [p])]))
         == TreePreimage(Tree(t.entities[path := e])) + (p.id + "\0" + ToPrefixed(p.content) + "\n")
  {
    var more := e.(parts := e.parts + [p]);
    PreimageLast(t, path, e);
    PreimageLast(t, path, more);
    if e.parts == [] {
      LinesOfBare(path, e);
    }
    LinesOfMore(path, e, p);
    Associative(TreePreimage(t), Terminated('\n', Lines(BlockOf(path, e))), PartLine(p) + ['\n']);
  }

  lemma {:induction false} LinesOfBare(path: string, e: Entity)
    requires e.parts == []
    ensures Terminated('\n', Lines(BlockOf(path, e))) == path + "\n" + if e.disabled then DISABLED + "\n" else ""
  {
    assert PartLines(SortById(e.parts)) == [];
    FewLines(path, DISABLED);
    assert Lines(BlockOf(path, e)) == if e.disabled then [path, DISABLED] else [path];
  }

  lemma {:induction false} SingleLine(line: string)
    ensures Terminated('\n', [line]) == line + ['\n']
  {
    assert [line][..0] == [];
  }

  lemma {:induction false} FewLines(first: string, second: string)
    ensures Terminated('\n', [first]) == first + ['\n'] && Terminated('\n', [first, second]) == first + ['\n'] + (second + ['\n'])
  {
    SingleLine(first);
    SingleLine(second);
    TerminatedAppend('\n', [first], [second]);
    assert [first] + [second] == [first, second];
  }

  lemma {:induction false} LinesOfMore(path: string, e: Entity, p: Part)
    requires forall i :: 0 <= i < |e.parts| ==> !Less(p.id, e.parts[i].id)
    ensures Terminated('\n', Lines(BlockOf(path, e.(parts := e.parts + [p]))))
         == Terminated('\n', Lines(BlockOf(path, e))) + (PartLine(p) + ['\n'])
  {
    SortLast(e.parts, p);
    LinesSnoc(Block(path, e.disabled, PartLines(SortById(e.parts))), p, PartLines(SortById(e.parts) + [p]));
  }

  lemma {:induction false} LinesSnoc(b: Block, p: Part, sheet: seq<string>)
    requires sheet == b.sheet + [PartLine(p)]
    ensures Terminated('\n', Lines(b.(sheet := sheet))) == Terminated('\n', Lines(b)) + (PartLine(p) + ['\n'])
  {
    assert Lines(b.(sheet := sheet)) == Lines(b) + [PartLine(p)];
    TerminatedSnoc('\n', Lines(b), PartLine(p));
    Associative(Terminated('\n', Lines(b)), PartLine(p), ['\n']);
  }
}
