/**
 The canonical string behind a tree's hash: per entity in path order its path line, a `disabled`
 line if it is disabled, and one line per part in id order. Nothing separates one entity from
 the next, so the bare `disabled` line can be read as an entity of that name; the results say
 exactly for which trees that matters.
 */
module TreeHash {
  import opened Collections
  import opened Ordering
  import opened ContentHashes
  import opened Wire
  import opened WireTheorems
  import opened Canonical

  const DISABLED: string := "disabled"

  function PartLine(p: Part): string
  {
    p.id + "\0" + ToPrefixed(p.content)
  }

  function PartLines(parts: seq<Part>): (r: seq<string>)
    ensures |r| == |parts| && forall i :: 0 <= i < |parts| ==> r[i] == PartLine(parts[i])
  {
    seq(|parts|, i requires 0 <= i < |parts| => PartLine(parts[i]))
  }

  /** One entity as it is written: path line, flag line, part lines. */
  datatype Block = Block(path: string, flag: bool, sheet: seq<string>)

  function Lines(b: Block): seq<string>
  {
    [b.path] + (if b.flag then [DISABLED] else []) + b.sheet
  }

  function BlockLines(bs: seq<Block>): (r: seq<seq<string>>)
    ensures |r| == |bs| && forall i :: 0 <= i < |bs| ==> r[i] == Lines(bs[i])
  {
    seq(|bs|, i requires 0 <= i < |bs| => Lines(bs[i]))
  }

  function Render(bs: seq<Block>): seq<string>
  {
    Flatten(BlockLines(bs))
  }

  function BlockOf(path: string, e: Entity): Block
  {
    Block(path, e.disabled, PartLines(SortById(e.parts)))
  }

  function BlocksOver(t: Tree, paths: seq<string>): (r: seq<Block>)
    requires forall p :: p in paths ==> p in t.entities
    ensures |r| == |paths| && forall i :: 0 <= i < |paths| ==> r[i] == BlockOf(paths[i], t.entities[paths[i]])
  {
    seq(|paths|, i requires 0 <= i < |paths| => BlockOf(paths[i], t.entities[paths[i]]))
  }

  function Blocks(t: Tree): seq<Block>
  {
    BlocksOver(t, t.Paths())
  }

  function TreePreimage(t: Tree): string
  {
    Terminated('\n', Render(Blocks(t)))
  }

  // --- the loop that writes it -----------------------------------------------

  method PushParts(buf: string, parts: seq<Part>) returns (r: string)
    ensures r == buf + Terminated('\n', PartLines(parts))
  {
    ghost var lines := PartLines(parts);
    r := buf;
    for i := 0 to |parts|
      invariant r == buf + Terminated('\n', lines[..i])
    {
      TerminatedNext(lines, i);
      Associative(buf, Terminated('\n', lines[..i]), lines[i] + ['\n']);
      r := PushPart(r, parts[i]);
    }
    assert lines[..|parts|] == lines;
  }

  lemma {:induction false} TerminatedNext(lines: seq<string>, i: nat)
    requires i < |lines|
    ensures Terminated('\n', lines[..i + 1]) == Terminated('\n', lines[..i]) + (lines[i] + ['\n'])
  {
    assert lines[..i + 1] == lines[..i] + [lines[i]];
    TerminatedSnoc('\n', lines[..i], lines[i]);
  }

  method PushPart(buf: string, p: Part) returns (r: string)
    ensures r == buf + (PartLine(p) + ['\n'])
  {
    r := buf;
    r := r + p.id;
    r := r + "\0";
    r := r + ToPrefixed(p.content);
    r := r + "\n";
  }

  method PushLine(buf: string, line: string, ghost lines: seq<string>) returns (r: string)
    requires buf == Terminated('\n', lines)
    ensures r == Terminated('\n', lines + [line])
  {
    r := buf + line;
    r := r + "\n";
    TerminatedSnoc('\n', lines, line);
  }

  lemma {:induction false} EntityLines(lines: seq<string>, b: Block)
    ensures Terminated('\n', lines + Lines(b))
         == Terminated('\n', lines + [b.path] + if b.flag then [DISABLED] else []) + Terminated('\n', b.sheet)
  {
    var head := lines + [b.path] + if b.flag then [DISABLED] else [];
    assert lines + Lines(b) == head + b.sheet;
    TerminatedAppend('\n', head, b.sheet);
  }

  method PushEntity(buf: string, path: string, disabled: bool, parts: seq<Part>, ghost lines: seq<string>) returns (r: string)
    requires buf == Terminated('\n', lines)
    ensures r == Terminated('\n', lines + Lines(Block(path, disabled, PartLines(SortById(parts)))))
  {
    r := PushLine(buf, path, lines);
    if disabled {
      r := PushLine(r, DISABLED, lines + [path]);
    } else {
      assert lines + [path] + [] == lines + [path];
    }
    var sorted := SortById(parts);
    EntityLines(lines, Block(path, disabled, PartLines(sorted)));
    r := PushParts(r, sorted);
  }

  method PushTree(t: Tree, paths: seq<string>) returns (buf: string)
    requires forall p :: p in paths ==> p in t.entities
    ensures buf == Terminated('\n', Render(BlocksOver(t, paths)))
  {
    buf := [];
    ghost var blocks := BlocksOver(t, paths);
    ghost var lines := BlockLines(blocks);
    for i := 0 to |paths|
      invariant buf == Terminated('\n', Flatten(lines[..i]))
    {
      var e := t.entities[paths[i]];
      assert lines[i] == Lines(blocks[i]);
      buf := PushEntity(buf, paths[i], e.disabled, e.parts, Flatten(lines[..i]));
      FlattenNext(lines, i);
    }
    assert lines[..|paths|] == lines;
  }

  method ComputeTreeHash(t: Tree) returns (buf: string)
    ensures buf == TreePreimage(t)
  {
    buf := PushTree(t, t.Paths());
  }

  // --- what the lines determine ----------------------------------------------

  /** Distinct part ids, and no separator character in any path or part id. */
  ghost predicate CleanTree(t: Tree)
  {
    forall path :: path in t.entities ==>
      && '\n' !in path && '\0' !in path
      && DistinctIds(t.entities[path].parts)
      && forall p :: p in t.entities[path].parts ==> '\n' !in p.id && '\0' !in p.id
  }

  /** The same desired state: the same paths, each with the same disabled flag and the same content per id. */
  ghost predicate SameTarget(t: Tree, u: Tree)
  {
    && t.entities.Keys == u.entities.Keys
    && forall path :: path in t.entities ==>
         && t.entities[path].disabled == u.entities[path].disabled
         && Bank(t.entities[path].parts) == Bank(u.entities[path].parts)
  }

  /** Block lists as a tree writes them: ascending paths without NUL, part lines with. */
  ghost predicate WellFormed(bs: seq<Block>)
  {
    && (forall i :: 0 <= i < |bs| ==> '\0' !in bs[i].path && (forall l :: l in bs[i].sheet ==> '\0' in l))
    && (forall i, j :: 0 <= i < j < |bs| ==> Less(bs[i].path, bs[j].path))
  }

  ghost predicate LineFree(bs: seq<Block>)
  {
    forall i :: 0 <= i < |bs| ==> '\n' !in bs[i].path && forall l :: l in bs[i].sheet ==> '\n' !in l
  }

  lemma {:induction false} RenderCons(b: Block, rest: seq<Block>)
    ensures Render([b] + rest) == Lines(b) + Render(rest)
  {
    assert BlockLines([b] + rest) == [Lines(b)] + BlockLines(rest);
    FlattenCons(Lines(b), BlockLines(rest));
  }

  lemma {:induction false} RenderFree(bs: seq<Block>)
    requires LineFree(bs)
    ensures Free('\n', Render(bs))
  {
    if bs != [] {
      assert bs == [bs[0]] + bs[1..];
      RenderCons(bs[0], bs[1..]);
      RenderFree(bs[1..]);
      assert '\n' !in DISABLED;
    }
  }

  /** A rendering is empty or starts with a path line. */
  lemma {:induction false} RenderStarts(bs: seq<Block>)
    requires WellFormed(bs)
    ensures Render(bs) == [] <==> bs == []
    ensures bs != [] ==> Render(bs)[0] == bs[0].path && '\0' !in Render(bs)[0]
  {
    if bs != [] {
      assert bs == [bs[0]] + bs[1..];
      RenderCons(bs[0], bs[1..]);
    }
  }

  /** Part lines, told apart by their NUL, end where the next path begins. */
  lemma {:induction false} SheetEnds(sa: seq<string>, ra: seq<string>, sb: seq<string>, rb: seq<string>)
    requires (forall l :: l in sa ==> '\0' in l) && (forall l :: l in sb ==> '\0' in l)
    requires (ra != [] ==> '\0' !in ra[0]) && (rb != [] ==> '\0' !in rb[0])
    requires sa + ra == sb + rb
    ensures sa == sb && ra == rb
  {
    var whole := sa + ra;
    assert forall i :: 0 <= i < |sa| ==> whole[i] == sa[i] && sa[i] in sa;
    assert forall i :: 0 <= i < |sb| ==> whole[i] == sb[i] && sb[i] in sb;
    assert ra != [] ==> whole[|sa|] == ra[0];
    assert rb != [] ==> whole[|sb|] == rb[0];
    assert |sa| == |sb|;
    assert sa == whole[..|sa|] && sb == whole[..|sb|];
    assert ra == whole[|sa|..] && rb == whole[|sb|..];
  }

  /**
   The one way two different block lists can print alike: the first flags an entity where the
   second has a bare entity followed by one called `disabled`.
   */
  ghost predicate RefoldAt(a: seq<Block>, b: seq<Block>, n: nat)
  {
    && n < |a| && n + 1 < |b|
    && a[..n] == b[..n]
    && a[n].path == b[n].path && a[n].flag && !b[n].flag && b[n].sheet == []
    && b[n + 1].path == DISABLED
    && if b[n + 1].flag then
         && n + 1 < |a| && a[n].sheet == [] && a[n + 1] == Block(DISABLED, false, b[n + 1].sheet)
         && a[n + 2..] == b[n + 2..]
       else a[n].sheet == b[n + 1].sheet && a[n + 1..] == b[n + 2..]
  }

  ghost predicate Refold(a: seq<Block>, b: seq<Block>)
  {
    exists n: nat :: RefoldAt(a, b, n)
  }

  lemma {:induction false} RefoldCons(x: Block, a: seq<Block>, b: seq<Block>)
    requires Refold(a, b)
    ensures Refold([x] + a, [x] + b)
  {
    var n: nat :| RefoldAt(a, b, n);
    var xa, xb := [x] + a, [x] + b;
    ConsSlices(x, a, n);
    ConsSlices(x, b, n);
    ConsSlices(x, a, n + 1);
    ConsSlices(x, b, n + 2);
    if b[n + 1].flag {
      ConsSlices(x, a, n + 2);
    }
    assert xa[n + 1] == a[n] && xb[n + 1] == b[n] && xb[n + 2] == b[n + 1];
    assert RefoldAt(xa, xb, n + 1);
  }

  /** Past `disabled` in path order nothing can be refolded. */
  lemma {:induction false} NoRefoldAbove(a: seq<Block>, b: seq<Block>)
    requires WellFormed(a) && WellFormed(b)
    requires forall i :: 0 <= i < |b| ==> Less(DISABLED, b[i].path)
    ensures !Refold(a, b) && !Refold(b, a)
  {
    LessIrreflexive(DISABLED);
    if n: nat :| RefoldAt(b, a, n) {
      assert Less(a[n].path, a[n + 1].path);
      LessAsymmetric(a[n].path, a[n + 1].path);
    }
  }

  /** The lines of a block after its path. */
  function Tail(b: Block, rest: seq<Block>): seq<string>
  {
    (if b.flag then [DISABLED] else []) + b.sheet + Render(rest)
  }

  lemma {:induction false} RenderTail(x: Block, rest: seq<Block>)
    ensures Render([x] + rest) == [x.path] + Tail(x, rest)
  {
    RenderCons(x, rest);
  }

  /** Two block lists that print the same lines are equal or differ by one refold. */
  lemma {:induction false} RenderNearlyInjective(a: seq<Block>, b: seq<Block>)
    requires WellFormed(a) && WellFormed(b) && Render(a) == Render(b)
    ensures a == b || Refold(a, b) || Refold(b, a)
    decreases |a| + |b|, 0
  {
    RenderStarts(a);
    RenderStarts(b);
    if a != [] {
      var x, restA, y, restB := a[0], a[1..], b[0], b[1..];
      assert a == [x] + restA && b == [y] + restB;
      RenderTail(x, restA);
      RenderTail(y, restB);
      assert Tail(x, restA) == Render(a)[1..] == Tail(y, restB);
      StepInjective(x, restA, y, restB);
    }
  }

  lemma {:induction false} StepInjective(x: Block, restA: seq<Block>, y: Block, restB: seq<Block>)
    requires WellFormed([x] + restA) && WellFormed([y] + restB)
    requires x.path == y.path && Tail(x, restA) == Tail(y, restB)
    ensures var a, b := [x] + restA, [y] + restB; a == b || Refold(a, b) || Refold(b, a)
    decreases |restA| + |restB| + 1, 3
  {
    RestWellFormed(x, restA);
    RestWellFormed(y, restB);
    if x.flag == y.flag {
      SameFlag(x, restA, y, restB);
      RenderNearlyInjective(restA, restB);
      if Refold(restA, restB) {
        RefoldCons(x, restA, restB);
      } else if Refold(restB, restA) {
        RefoldCons(x, restB, restA);
      }
    } else if x.flag {
      FlagAgainstName(x, restA, y, restB);
    } else {
      FlagAgainstName(y, restB, x, restA);
    }
  }

  lemma {:induction false} RestWellFormed(x: Block, rest: seq<Block>)
    requires WellFormed([x] + rest)
    ensures WellFormed(rest) && '\0' !in x.path && (forall l :: l in x.sheet ==> '\0' in l)
    ensures forall i :: 0 <= i < |rest| ==> Less(x.path, rest[i].path)
  {
    var all := [x] + rest;
    assert all[0] == x && forall i :: 0 <= i < |rest| ==> rest[i] == all[i + 1];
  }

  lemma {:induction false} SameFlag(x: Block, restA: seq<Block>, y: Block, restB: seq<Block>)
    requires WellFormed([x] + restA) && WellFormed([y] + restB) && WellFormed(restA) && WellFormed(restB)
    requires x.path == y.path && x.flag == y.flag
    requires Tail(x, restA) == Tail(y, restB)
    ensures x == y && Render(restA) == Render(restB)
  {
    assert ([x] + restA)[0] == x && ([y] + restB)[0] == y;
    RenderStarts(restA);
    RenderStarts(restB);
    var ra, rb := Render(restA), Render(restB);
    if x.flag {
      assert ([DISABLED] + x.sheet + ra)[1..] == x.sheet + ra;
      assert ([DISABLED] + y.sheet + rb)[1..] == y.sheet + rb;
    } else {
      assert [] + x.sheet + ra == x.sheet + ra && [] + y.sheet + rb == y.sheet + rb;
    }
    SheetEnds(x.sheet, ra, y.sheet, rb);
  }

  lemma {:induction false} FirstOfSheet(sheet: seq<string>, rest: seq<string>)
    requires sheet + rest != []
    ensures sheet != [] ==> (sheet + rest)[0] in sheet
  {
    assert sheet != [] ==> (sheet + rest)[0] == sheet[0];
  }

  /** A `disabled` line where part lines or another entity could come must open that entity. */
  lemma {:induction false} OpensEntity(lines: seq<string>, sheet: seq<string>, rest: seq<Block>)
    requires WellFormed(rest) && forall l :: l in sheet ==> '\0' in l
    requires [DISABLED] + lines == sheet + Render(rest)
    ensures sheet == [] && rest != [] && rest[0].path == DISABLED && lines == Tail(rest[0], rest[1..])
  {
    var whole := sheet + Render(rest);
    FirstOfSheet(sheet, Render(rest));
    assert whole[0] == DISABLED && '\0' !in DISABLED;
    assert whole == Render(rest);
    RenderStarts(rest);
    assert rest == [rest[0]] + rest[1..];
    RenderTail(rest[0], rest[1..]);
    assert lines == whole[1..];
  }

  lemma {:induction false} TailParts(b: Block, rest: seq<Block>)
    ensures b.flag ==> Tail(b, rest) == [DISABLED] + (b.sheet + Render(rest))
    ensures !b.flag ==> Tail(b, rest) == b.sheet + Render(rest)
  {
  }

  /** A flag line on one side against a path line on the other. */
  lemma {:induction false} FlagAgainstName(x: Block, restA: seq<Block>, y: Block, restB: seq<Block>)
    requires WellFormed([x] + restA) && WellFormed([y] + restB) && WellFormed(restA) && WellFormed(restB)
    requires x.path == y.path && x.flag && !y.flag
    requires Tail(x, restA) == Tail(y, restB)
    ensures Refold([x] + restA, [y] + restB)
    decreases |restA| + |restB| + 1, 0
  {
    RestWellFormed(x, restA);
    RestWellFormed(y, restB);
    TailParts(x, restA);
    TailParts(y, restB);
    OpensEntity(x.sheet + Render(restA), y.sheet, restB);
    var d, above := restB[0], restB[1..];
    assert restB == [d] + above;
    RestWellFormed(d, above);
    TailParts(d, above);
    if d.flag {
      SwappedFlags(x, restA, y, d, above);
    } else {
      RenderStarts(restA);
      RenderStarts(above);
      SheetEnds(x.sheet, Render(restA), d.sheet, Render(above));
      RenderInjectiveAbove(restA, above);
      FoldedHere(x, restA, y, d);
    }
  }

  lemma {:induction false} FoldedHere(x: Block, rest: seq<Block>, y: Block, d: Block)
    requires x.path == y.path && x.flag && !y.flag && y.sheet == [] && d == Block(DISABLED, false, x.sheet)
    ensures Refold([x] + rest, [y] + ([d] + rest))
  {
    var a, b := [x] + rest, [y] + ([d] + rest);
    assert a[0] == x && b[0] == y && b[1] == d && a[1..] == rest && b[2..] == rest;
    assert RefoldAt(a, b, 0);
  }

  lemma {:induction false} SwappedHere(x: Block, rest: seq<Block>, y: Block, sheet: seq<string>)
    requires x.path == y.path && x.flag && !y.flag && x.sheet == [] && y.sheet == []
    ensures Refold([x] + ([Block(DISABLED, false, sheet)] + rest), [y] + ([Block(DISABLED, true, sheet)] + rest))
  {
    var c, d := Block(DISABLED, false, sheet), Block(DISABLED, true, sheet);
    var a, b := [x] + ([c] + rest), [y] + ([d] + rest);
    assert a[0] == x && a[1] == c && b[0] == y && b[1] == d && a[2..] == rest && b[2..] == rest;
    assert RefoldAt(a, b, 0);
  }

  lemma {:induction false} SwappedFlags(x: Block, restA: seq<Block>, y: Block, d: Block, above: seq<Block>)
    requires WellFormed([x] + restA) && WellFormed(restA) && WellFormed(above)
    requires x.path == y.path && x.flag && !y.flag && y.sheet == []
    requires d.path == DISABLED && d.flag && forall l :: l in d.sheet ==> '\0' in l
    requires forall i :: 0 <= i < |above| ==> Less(DISABLED, above[i].path)
    requires x.sheet + Render(restA) == [DISABLED] + (d.sheet + Render(above))
    ensures Refold([x] + restA, [y] + ([d] + above))
    decreases |restA| + |above| + 1, 1
  {
    RestWellFormed(x, restA);
    OpensEntity(d.sheet + Render(above), x.sheet, restA);
    var c, rest := restA[0], restA[1..];
    assert restA == [c] + rest;
    RestWellFormed(c, rest);
    TailParts(c, rest);
    if c.flag {
      OpensEntity(c.sheet + Render(rest), d.sheet, above);
      LessIrreflexive(DISABLED);
      assert false;
    }
    RenderStarts(rest);
    RenderStarts(above);
    SheetEnds(c.sheet, Render(rest), d.sheet, Render(above));
    RenderInjectiveAbove(rest, above);
    SwappedHere(x, rest, y, d.sheet);
  }

  lemma {:induction false} RenderInjectiveAbove(a: seq<Block>, b: seq<Block>)
    requires WellFormed(a) && WellFormed(b) && Render(a) == Render(b)
    requires forall i :: 0 <= i < |b| ==> Less(DISABLED, b[i].path)
    ensures a == b
    decreases |a| + |b|, 2
  {
    RenderNearlyInjective(a, b);
    NoRefoldAbove(a, b);
  }
}
