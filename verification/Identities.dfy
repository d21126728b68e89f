/**
 The content identities of component and vehicle releases. Each is the hash of a canonical
 string; what matters is which inputs share that string, so every statement is about the string.
 */
module Identities {
  import opened Collections
  import opened Ordering
  import opened ContentHashes
  import opened Wire
  import opened WireTheorems
  import opened Canonical

  // --- component releases ----------------------------------------------------

  function Record(p: Part): string
  {
    p.id + "\0" + p.kind + "\0" + ToPrefixed(p.content) + "\n"
  }

  function RecordList(parts: seq<Part>): (r: seq<string>)
    ensures |r| == |parts| && forall i :: 0 <= i < |parts| ==> r[i] == Record(parts[i])
  {
    seq(|parts|, i requires 0 <= i < |parts| => Record(parts[i]))
  }

  function Records(parts: seq<Part>): string
  {
    Flatten(RecordList(parts))
  }

  /** Entity kind, then one record per part in id order. */
  function ComponentPreimage(kind: string, parts: seq<Part>): string
  {
    kind + "\n" + Records(SortById(parts))
  }

  method PushRecord(buf: string, p: Part) returns (r: string)
    ensures r == buf + Record(p)
  {
    r := buf;
    r := r + p.id;
    r := r + "\0";
    r := r + p.kind;
    r := r + "\0";
    r := r + ToPrefixed(p.content);
    r := r + "\n";
  }

  method ComponentIdentity(kind: string, parts: seq<Part>) returns (buf: string)
    ensures buf == ComponentPreimage(kind, parts)
  {
    buf := PushRecords(kind + "\n", SortById(parts));
  }

  method PushRecords(head: string, parts: seq<Part>) returns (buf: string)
    ensures buf == head + Records(parts)
  {
    buf := head;
    for i := 0 to |parts|
      invariant buf == head + Records(parts[..i])
    {
      RecordsNext(parts, i);
      Associative(head, Records(parts[..i]), Record(parts[i]));
      buf := PushRecord(buf, parts[i]);
    }
    assert parts[..|parts|] == parts;
  }

  lemma {:induction false} RecordsNext(parts: seq<Part>, i: nat)
    requires i < |parts|
    ensures Records(parts[..i + 1]) == Records(parts[..i]) + Record(parts[i])
  {
    assert RecordList(parts[..i + 1]) == RecordList(parts[..i]) + [Record(parts[i])];
    FlattenSnoc(RecordList(parts[..i]), Record(parts[i]));
  }

  lemma {:induction false} RecordsCons(p: Part, rest: seq<Part>)
    ensures Records([p] + rest) == Record(p) + Records(rest)
  {
    assert RecordList([p] + rest) == [Record(p)] + RecordList(rest);
    FlattenCons(Record(p), RecordList(rest));
  }

  lemma {:induction false} RecordsOne(p: Part)
    ensures SortById([p]) == [p] && Records([p]) == Record(p)
  {
    assert [p][..0] == [] && SortById([]) == [];
    assert [p] == [p] + [];
    RecordsCons(p, []);
    assert Records([]) == [];
  }

  /** No NUL in any id or kind. Newlines are harmless: the digest has a fixed length. */
  ghost predicate NulFree(parts: seq<Part>)
  {
    forall p :: p in parts ==> '\0' !in p.id && '\0' !in p.kind
  }

  lemma {:induction false} RecordUnique(p: Part, restP: string, q: Part, restQ: string)
    requires '\0' !in p.id && '\0' !in p.kind && '\0' !in q.id && '\0' !in q.kind
    requires Record(p) + restP == Record(q) + restQ
    ensures p == q && restP == restQ
  {
    var hp, hq := ToPrefixed(p.content), ToPrefixed(q.content);
    var tailP, tailQ := hp + "\n" + restP, hq + "\n" + restQ;
    assert Record(p) + restP == p.id + ['\0'] + (p.kind + ['\0'] + tailP);
    assert Record(q) + restQ == q.id + ['\0'] + (q.kind + ['\0'] + tailQ);
    SplitUnique('\0', p.id, p.kind + ['\0'] + tailP, q.id, q.kind + ['\0'] + tailQ);
    SplitUnique('\0', p.kind, tailP, q.kind, tailQ);
    assert hp == tailP[..71] && hq == tailQ[..71];
    assert restP == tailP[72..] && restQ == tailQ[72..];
    PrintInjective(p.content, q.content);
  }

  lemma {:induction false} RecordsEmpty(parts: seq<Part>)
    ensures Records(parts) == [] <==> parts == []
  {
    if parts != [] {
      assert parts == [parts[0]] + parts[1..];
      RecordsCons(parts[0], parts[1..]);
      assert |Record(parts[0])| > 0;
    }
  }

  lemma {:induction false} RecordsInjective(a: seq<Part>, b: seq<Part>)
    requires NulFree(a) && NulFree(b) && Records(a) == Records(b)
    ensures a == b
  {
    RecordsEmpty(a);
    RecordsEmpty(b);
    if a != [] {
      var p, restA, q, restB := a[0], a[1..], b[0], b[1..];
      assert a == [p] + restA && b == [q] + restB;
      RecordsCons(p, restA);
      RecordsCons(q, restB);
      RecordUnique(p, Records(restA), q, Records(restB));
      RecordsInjective(restA, restB);
    }
  }

  /** Two component releases share an identity string exactly when they have the same kind and the same parts. */
  lemma {:induction false} ComponentIdentityExact(kindA: string, a: seq<Part>, kindB: string, b: seq<Part>)
    requires DistinctIds(a) && DistinctIds(b) && NulFree(a) && NulFree(b)
    requires '\n' !in kindA && '\n' !in kindB
    ensures ComponentPreimage(kindA, a) == ComponentPreimage(kindB, b) <==> kindA == kindB && multiset(a) == multiset(b)
  {
    SortCanonical(a, b);
    if ComponentPreimage(kindA, a) == ComponentPreimage(kindB, b) {
      SplitUnique('\n', kindA, Records(SortById(a)), kindB, Records(SortById(b)));
      SortSorts(a);
      SortSorts(b);
      forall p | p in SortById(a) ensures p in a {
        assert p in multiset(SortById(a));
      }
      forall p | p in SortById(b) ensures p in b {
        assert p in multiset(SortById(b));
      }
      RecordsInjective(SortById(a), SortById(b));
    }
  }

  lemma {:induction false} SortedStays(parts: seq<Part>)
    requires AscendingIds(parts) && DistinctIds(parts)
    ensures SortById(parts) == parts
  {
    SortSorts(parts);
    forall p ensures p in SortById(parts) <==> p in parts {
      assert p in SortById(parts) <==> p in multiset(SortById(parts));
    }
    AscendingPartsUnique(SortById(parts), parts);
  }

  /** Without the newline condition every release with parts collides: its first record can pass for part of the kind. */
  lemma {:induction false} KindNewlineCollides(kind: string, parts: seq<Part>)
    requires DistinctIds(parts) && parts != []
    ensures var first, rest := SortById(parts)[0], SortById(parts)[1..];
            && DistinctIds(rest) && |rest| < |parts|
            && ComponentPreimage(Swallowing(kind, first), rest) == ComponentPreimage(kind, parts)
  {
    SortSorts(parts);
    var sorted := SortById(parts);
    assert |multiset(sorted)| == |multiset(parts)|;
    AscendingIdsDiffer(sorted);
    AscendingIdsDiffer(sorted[1..]);
    SortedStays(sorted[1..]);
    assert sorted == [sorted[0]] + sorted[1..];
    RecordsCons(sorted[0], sorted[1..]);
    SwallowsRecord(kind, sorted[0], Records(sorted[1..]));
  }

  function Swallowing(kind: string, p: Part): string
  {
    kind + "\n" + p.id + "\0" + p.kind + "\0" + ToPrefixed(p.content)
  }

  lemma {:induction false} SwallowsRecord(kind: string, p: Part, rest: string)
    ensures Swallowing(kind, p) + "\n" + rest == kind + "\n" + (Record(p) + rest)
  {
    assert Swallowing(kind, p) + "\n" == kind + "\n" + Record(p);
  }

  /** Two different requests with one identity string. */
  ghost predicate Collide(kindA: string, a: seq<Part>, kindB: string, b: seq<Part>)
  {
    && DistinctIds(a) && DistinctIds(b)
    && ComponentPreimage(kindA, a) == ComponentPreimage(kindB, b)
    && (kindA != kindB || multiset(a) != multiset(b))
  }

  ghost predicate EndsInRecord(kind: string)
  {
    exists k: string, p: Part :: kind == Swallowing(k, p)
  }

  /**
   With no condition on characters, a request with distinct ids shares its string with a different
   one exactly when it has parts, or its kind ends in what could be a record.
   */
  lemma {:induction false} ComponentCollidesExact(kind: string, parts: seq<Part>)
    requires DistinctIds(parts)
    ensures (exists kindB: string, b: seq<Part> :: Collide(kind, parts, kindB, b)) <==> parts != [] || EndsInRecord(kind)
  {
    if parts != [] {
      KindNewlineCollides(kind, parts);
      var sorted := SortById(parts);
      assert |multiset(sorted[1..])| < |multiset(parts)|;
      assert Collide(kind, parts, Swallowing(kind, sorted[0]), sorted[1..]);
    } else if EndsInRecord(kind) {
      var k: string, p: Part :| kind == Swallowing(k, p);
      UnswallowOne(k, p);
      assert Collide(kind, parts, k, [p]) by {
        assert |multiset([p])| == 1;
      }
    }
    if kindB: string, b: seq<Part> :| Collide(kind, parts, kindB, b) {
      if parts == [] {
        BareCollision(kind, kindB, b);
      }
    }
  }

  lemma {:induction false} UnswallowOne(kind: string, p: Part)
    ensures ComponentPreimage(kind, [p]) == ComponentPreimage(Swallowing(kind, p), [])
  {
    KindNewlineCollides(kind, [p]);
    RecordsOne(p);
    assert [p][1..] == [];
  }

  lemma {:induction false} EmptySide(kind: string, kindB: string, b: seq<Part>)
    requires ComponentPreimage(kind, []) == ComponentPreimage(kindB, b) && SortById(b) == []
    ensures kind == kindB && multiset(b) == multiset([])
  {
    SortSorts(b);
    assert SortById([]) == [] && Records([]) == [];
    assert kind + "\n" + [] == kind + "\n" && kindB + "\n" + [] == kindB + "\n";
    CancelLast(kind, kindB, '\n');
  }

  lemma {:induction false} CancelLast(a: string, b: string, c: char)
    requires a + [c] == b + [c]
    ensures a == b
  {
    assert a == (a + [c])[..|a|] && b == (b + [c])[..|b|];
  }

  lemma {:induction false} BareCollision(kind: string, kindB: string, b: seq<Part>)
    requires Collide(kind, [], kindB, b)
    ensures EndsInRecord(kind)
  {
    if SortById(b) == [] {
      EmptySide(kind, kindB, b);
    } else {
      assert ComponentPreimage(kind, []) == kind + "\n";
      LastRecord(kind, kindB, SortById(b));
    }
  }

  lemma {:induction false} LastRecord(kind: string, kindB: string, sorted: seq<Part>)
    requires sorted != [] && kind + "\n" == kindB + "\n" + Records(sorted)
    ensures EndsInRecord(kind)
  {
    var n := |sorted| - 1;
    RecordsNext(sorted, n);
    assert sorted[..n + 1] == sorted;
    var head := kindB + "\n" + Records(sorted[..n]);
    Associative(kindB + "\n", Records(sorted[..n]), Record(sorted[n]));
    EndsInNewline(kindB, sorted[..n]);
    Swallowed(kind, head[..|head| - 1], sorted[n]);
  }

  lemma {:induction false} Swallowed(kind: string, k: string, p: Part)
    requires kind + "\n" == k + "\n" + Record(p)
    ensures EndsInRecord(kind)
  {
    SwallowsRecord(k, p, []);
    CancelLast(kind, Swallowing(k, p), '\n');
  }

  lemma {:induction false} EndsInNewline(kind: string, parts: seq<Part>)
    ensures var head := kind + "\n" + Records(parts); head == head[..|head| - 1] + "\n"
  {
    if parts != [] {
      var n := |parts| - 1;
      RecordsNext(parts, n);
      assert parts[..n + 1] == parts;
      var r := Record(parts[n]);
      assert r[|r| - 1] == '\n';
    }
  }

  lemma {:induction false} AscendingIdsDiffer(parts: seq<Part>)
    requires AscendingIds(parts)
    ensures DistinctIds(parts)
  {
    forall i, j | 0 <= i < j < |parts| ensures parts[i].id != parts[j].id {
      LessIrreflexive(parts[i].id);
    }
  }

  /** A NUL can move the boundary between a part's id and its kind. */
  lemma {:induction false} NulCollides(entityKind: string, a: string, b: string, c: string, content: ContentHash)
    ensures var p, q := Part(c, a + "\0" + b, content), Part(b + "\0" + c, a, content);
            p != q && ComponentPreimage(entityKind, [p]) == ComponentPreimage(entityKind, [q])
  {
    var p, q := Part(c, a + "\0" + b, content), Part(b + "\0" + c, a, content);
    assert |p.id| != |q.id|;
    RecordsOne(p);
    RecordsOne(q);
    assert Record(p) == Record(q);
  }

  // --- when row order shows --------------------------------------------------

  /** For all lists of NUL-free rows: one kind, one identity string, exactly when every id has the same rows in the same order. */
  lemma {:induction false} RowsExact(kind: string, a: seq<Part>, b: seq<Part>)
    requires NulFree(a) && NulFree(b)
    ensures ComponentPreimage(kind, a) == ComponentPreimage(kind, b) <==> SameById(a, b)
  {
    SortExact(a, b);
    if ComponentPreimage(kind, a) == ComponentPreimage(kind, b) {
      CancelHead(kind + "\n", Records(SortById(a)), Records(SortById(b)));
      SortedNulFree(a);
      SortedNulFree(b);
      RecordsInjective(SortById(a), SortById(b));
    }
  }

  /** And whatever the ids: two requests share their string exactly when they have one kind and the same rows for every id in the same order. */
  lemma {:induction false} ComponentRowsExact(kindA: string, a: seq<Part>, kindB: string, b: seq<Part>)
    requires NulFree(a) && NulFree(b) && '\n' !in kindA && '\n' !in kindB
    ensures ComponentPreimage(kindA, a) == ComponentPreimage(kindB, b) <==> kindA == kindB && SameById(a, b)
  {
    if ComponentPreimage(kindA, a) == ComponentPreimage(kindB, b) {
      SplitUnique('\n', kindA, Records(SortById(a)), kindB, Records(SortById(b)));
    }
    if kindA == kindB {
      RowsExact(kindA, a, b);
    }
  }

  lemma {:induction false} CancelHead(head: string, a: string, b: string)
    requires head + a == head + b
    ensures a == b
  {
    assert a == (head + a)[|head|..] && b == (head + b)[|head|..];
  }

  lemma {:induction false} SortedNulFree(parts: seq<Part>)
    requires NulFree(parts)
    ensures NulFree(SortById(parts))
  {
    SortSorts(parts);
    forall p | p in SortById(parts) ensures p in parts {
      assert p in multiset(SortById(parts));
    }
  }

  /** No rearrangement of the rows changes the identity string. */
  ghost predicate OrderHidden(kind: string, parts: seq<Part>)
  {
    forall b: seq<Part> :: multiset(b) == multiset(parts) ==> ComponentPreimage(kind, b) == ComponentPreimage(kind, parts)
  }

  /** When rows that share an id are equal, row order does not matter, whatever characters they hold. */
  lemma {:induction false} RepeatsHideOrder(kind: string, parts: seq<Part>)
    requires RepeatsAgree(parts)
    ensures OrderHidden(kind, parts)
  {
    forall b: seq<Part> | multiset(b) == multiset(parts) ensures ComponentPreimage(kind, b) == ComponentPreimage(kind, parts) {
      RearrangedSame(parts, b);
      SortExact(parts, b);
    }
  }

  /** Row order does not matter exactly when rows that share an id are equal, for every kind and every list of NUL-free rows. */
  lemma {:induction false} RowOrderExact(kind: string, parts: seq<Part>)
    requires NulFree(parts)
    ensures OrderHidden(kind, parts) <==> RepeatsAgree(parts)
  {
    if RepeatsAgree(parts) {
      RepeatsHideOrder(kind, parts);
    }
    if OrderHidden(kind, parts) {
      forall p, q | p in parts && q in parts && p.id == q.id ensures p == q {
        HiddenAgree(kind, parts, p, q);
      }
    }
  }

  lemma {:induction false} HiddenAgree(kind: string, parts: seq<Part>, p: Part, q: Part)
    requires NulFree(parts) && OrderHidden(kind, parts) && p in parts && q in parts && p.id == q.id
    ensures p == q
  {
    var sorted := SortById(parts);
    SortSorts(parts);
    SortStable(parts);
    assert p in multiset(parts) && q in multiset(parts);
    var i :| 0 <= i < |sorted| && sorted[i] == p;
    var j :| 0 <= j < |sorted| && sorted[j] == q;
    if p != q {
      var k := AdjacentClash(sorted, (r: Part) => r, if i < j then i else j, if i < j then j else i);
      ExchangeShows(kind, parts, sorted, k);
    }
  }

  /** Exchanging two neighbouring rows of one id leaves the string alone only if they are equal. */
  lemma {:induction false} ExchangeShows(kind: string, parts: seq<Part>, sorted: seq<Part>, k: nat)
    requires NulFree(parts) && OrderHidden(kind, parts) && multiset(sorted) == multiset(parts) && SortedIds(sorted)
    requires k + 1 < |sorted| && sorted[k].id == sorted[k + 1].id
    ensures sorted[k] == sorted[k + 1]
  {
    var other := Exchanged(sorted, k);
    ExchangedSame(sorted, k);
    ExchangedSorted(sorted, k);
    SortedFixed(sorted);
    SortedFixed(other);
    assert ComponentPreimage(kind, sorted) == ComponentPreimage(kind, other);
    forall p | p in sorted || p in other ensures p in parts {
      assert p in multiset(sorted) || p in multiset(other);
    }
    CancelHead(kind + "\n", Records(sorted), Records(other));
    RecordsInjective(sorted, other);
    assert other[k] == sorted[k + 1];
  }

  /** The smallest case. */
  lemma {:induction false} DuplicateIdsOrderMatters(kind: string, p: Part, q: Part)
    requires p.id == q.id && p != q && NulFree([p, q])
    ensures ComponentPreimage(kind, [p, q]) != ComponentPreimage(kind, [q, p])
  {
    assert p in [p, q] && q in [p, q];
    RowsExact(kind, [p, q], [q, p]);
    assert WithId([p, q], p.id)[0] == p && WithId([q, p], p.id)[0] == q;
  }

  // --- vehicle releases ------------------------------------------------------

  function InsertInt(sorted: seq<int>, n: int): seq<int>
  {
    if sorted == [] || n < sorted[0] then [n] + sorted else [sorted[0]] + InsertInt(sorted[1..], n)
  }

  function SortInts(s: seq<int>): seq<int>
  {
    if s == [] then [] else InsertInt(SortInts(s[..|s| - 1]), s[|s| - 1])
  }

  /** Drop an element equal to its predecessor. */
  function Dedup(s: seq<int>): seq<int>
  {
    if s == [] then []
    else if |s| > 1 && s[|s| - 2] == s[|s| - 1] then Dedup(s[..|s| - 1])
    else Dedup(s[..|s| - 1]) + [s[|s| - 1]]
  }

  ghost predicate NonDecreasing(s: seq<int>)
  {
    forall i, j :: 0 <= i < j < |s| ==> s[i] <= s[j]
  }

  ghost predicate Increasing(s: seq<int>)
  {
    forall i, j :: 0 <= i < j < |s| ==> s[i] < s[j]
  }

  function SetOf(s: seq<int>): set<int>
  {
    set x | x in s
  }

  lemma {:induction false} InsertIntKeeps(sorted: seq<int>, n: int)
    requires NonDecreasing(sorted)
    ensures NonDecreasing(InsertInt(sorted, n))
    ensures forall x :: x in InsertInt(sorted, n) <==> x in sorted || x == n
  {
    if sorted != [] && n >= sorted[0] {
      assert sorted == [sorted[0]] + sorted[1..];
      InsertIntKeeps(sorted[1..], n);
      var tail := InsertInt(sorted[1..], n);
      assert forall j :: 0 <= j < |tail| ==> tail[j] in tail;
    }
  }

  lemma {:induction false} SortIntsSorts(s: seq<int>)
    ensures NonDecreasing(SortInts(s))
    ensures forall x :: x in SortInts(s) <==> x in s
  {
    if s != [] {
      SortIntsSorts(s[..|s| - 1]);
      InsertIntKeeps(SortInts(s[..|s| - 1]), s[|s| - 1]);
      assert s == s[..|s| - 1] + [s[|s| - 1]];
    }
  }

  lemma {:induction false} DedupKeeps(s: seq<int>)
    requires NonDecreasing(s)
    ensures Increasing(Dedup(s))
    ensures forall x :: x in Dedup(s) <==> x in s
  {
    if s != [] {
      var init, last := s[..|s| - 1], s[|s| - 1];
      assert s == init + [last];
      DedupKeeps(init);
      if |s| > 1 && s[|s| - 2] == last {
        assert init[|init| - 1] == last;
      } else {
        var r := Dedup(init);
        forall i | 0 <= i < |r| ensures r[i] < last {
          assert r[i] in r;
          var k :| 0 <= k < |init| && init[k] == r[i];
          assert s[k] <= s[|s| - 2] <= last;
        }
      }
    }
  }

  /** Sorted and without repeats: the set, listed. */
  function Listing(s: seq<int>): seq<int>
  {
    Dedup(SortInts(s))
  }

  lemma {:induction false} ListingLists(s: seq<int>)
    ensures Increasing(Listing(s)) && forall x :: x in Listing(s) <==> x in s
  {
    SortIntsSorts(s);
    DedupKeeps(SortInts(s));
  }

  lemma {:induction false} IncreasingUnique(a: seq<int>, b: seq<int>)
    requires Increasing(a) && Increasing(b) && forall x :: x in a <==> x in b
    ensures a == b
  {
    assert a != [] ==> a[0] in a;
    assert b != [] ==> b[0] in b;
    if a != [] && b != [] {
      assert a[0] == b[0];
      assert forall x :: x in a <==> x == a[0] || x in a[1..];
      assert forall x :: x in b <==> x == b[0] || x in b[1..];
      assert a[0] !in a[1..] && b[0] !in b[1..];
      IncreasingUnique(a[1..], b[1..]);
      assert a == [a[0]] + a[1..] && b == [b[0]] + b[1..];
    }
  }

  function Decimals(s: seq<int>): (r: seq<string>)
    ensures |r| == |s| && forall i :: 0 <= i < |s| ==> r[i] == Decimal(s[i])
  {
    seq(|s|, i requires 0 <= i < |s| => Decimal(s[i]))
  }

  lemma {:induction false} DecimalsInjective(a: seq<int>, b: seq<int>)
    requires Decimals(a) == Decimals(b)
    ensures a == b
  {
    assert |a| == |b|;
    forall i | 0 <= i < |a| ensures a[i] == b[i] {
      assert Decimals(a)[i] == Decimals(b)[i];
      DecimalInjective(a[i], b[i]);
    }
  }

  function Csv(s: seq<int>): string
  {
    Join(',', Decimals(s))
  }

  lemma {:induction false} CsvPlain(s: seq<int>)
    ensures '\n' !in Csv(s)
    ensures Csv(s) == [] <==> s == []
    ensures Free(',', Decimals(s)) && forall d :: d in Decimals(s) ==> d != []
  {
    assert Free('\n', Decimals(s));
    JoinChars(',', Decimals(s), '\n');
    JoinNonEmpty(',', Decimals(s));
  }

  lemma {:induction false} CsvInjective(a: seq<int>, b: seq<int>)
    requires Csv(a) == Csv(b)
    ensures a == b
  {
    CsvPlain(a);
    CsvPlain(b);
    JoinInjective(',', Decimals(a), Decimals(b));
    DecimalsInjective(a, b);
  }

  /** The listed ids that are in `members`, in the listed order. */
  function Within(ids: seq<int>, members: seq<int>): seq<int>
  {
    if ids == [] then []
    else
      var last := ids[|ids| - 1];
      Within(ids[..|ids| - 1], members) + if last in members then [last] else []
  }

  lemma {:induction false} WithinMembers(ids: seq<int>, members: seq<int>)
    ensures forall x :: x in Within(ids, members) <==> x in ids && x in members
  {
    if ids != [] {
      WithinMembers(ids[..|ids| - 1], members);
      assert ids == ids[..|ids| - 1] + [ids[|ids| - 1]];
    }
  }

  const MARK: string := "\ndisabled:"

  /** The member ids, then the disabled ones among them if there are any. */
  function VehiclePreimage(members: seq<int>, disabled: seq<int>): string
  {
    var m := Listing(members);
    var d := Listing(Within(disabled, m));
    Csv(m) + Marked(d)
  }

  /** Rust's slice binary search over sorted ids. */
  method BinarySearch(s: seq<int>, x: int) returns (found: bool)
    requires Increasing(s)
    ensures found <==> x in s
  {
    var lo, hi := 0, |s|;
    while lo < hi
      invariant 0 <= lo <= hi <= |s|
      invariant forall i :: 0 <= i < |s| && s[i] == x ==> lo <= i < hi
    {
      var mid := (lo + hi) / 2;
      if s[mid] == x {
        return true;
      } else if s[mid] < x {
        lo := mid + 1;
      } else {
        hi := mid;
      }
    }
    return false;
  }

  method VehicleIdentity(members: seq<int>, disabled: seq<int>) returns (buf: string)
    ensures buf == VehiclePreimage(members, disabled)
  {
    var sorted := Listing(members);
    ListingLists(members);
    buf := Csv(sorted);
    var kept: seq<int> := [];
    for i := 0 to |disabled|
      invariant kept == Within(disabled[..i], sorted)
    {
      var found := BinarySearch(sorted, disabled[i]);
      if found {
        kept := kept + [disabled[i]];
      }
      assert disabled[..i + 1][..i] == disabled[..i];
    }
    assert disabled[..|disabled|] == disabled;
    kept := Listing(kept);
    if kept != [] {
      buf := buf + (MARK + Csv(kept));
    }
  }

  function Marked(d: seq<int>): string
  {
    if d == [] then [] else MARK + Csv(d)
  }

  lemma {:induction false} MarkedNewline(a: seq<int>, d: seq<int>)
    ensures '\n' in Csv(a) + Marked(d) <==> d != []
  {
    CsvPlain(a);
    if d != [] {
      assert (Csv(a) + Marked(d))[|Csv(a)|] == '\n';
    }
  }

  lemma {:induction false} MarkerSplits(mark: string, a: string, restA: string, b: string, restB: string)
    requires mark != [] && mark[0] !in a && mark[0] !in b
    requires a + (mark + restA) == b + (mark + restB)
    ensures a == b && restA == restB
  {
    var tail := mark[1..];
    assert mark == [mark[0]] + tail;
    assert a + (mark + restA) == a + [mark[0]] + (tail + restA);
    assert b + (mark + restB) == b + [mark[0]] + (tail + restB);
    SplitUnique(mark[0], a, tail + restA, b, tail + restB);
    assert (tail + restA)[|tail|..] == restA && (tail + restB)[|tail|..] == restB;
  }

  lemma {:induction false} MarkSplits(a: seq<int>, da: seq<int>, b: seq<int>, db: seq<int>)
    requires Csv(a) + Marked(da) == Csv(b) + Marked(db)
    ensures a == b && da == db
  {
    MarkedNewline(a, da);
    MarkedNewline(b, db);
    if da != [] {
      CsvPlain(a);
      CsvPlain(b);
      MarkerSplits(MARK, Csv(a), Csv(da), Csv(b), Csv(db));
      CsvInjective(a, b);
      CsvInjective(da, db);
    } else {
      assert Csv(a) + Marked(da) == Csv(a) && Csv(b) + Marked(db) == Csv(b);
      CsvInjective(a, b);
    }
  }

  /**
   Two vehicle releases share an identity string exactly when they have the same members and the
   same disabled members, however the request lists, orders or repeats them.
   */
  lemma {:induction false} VehicleIdentityExact(membersA: seq<int>, disabledA: seq<int>, membersB: seq<int>, disabledB: seq<int>)
    ensures VehiclePreimage(membersA, disabledA) == VehiclePreimage(membersB, disabledB)
            <==> && SetOf(membersA) == SetOf(membersB)
                 && SetOf(disabledA) * SetOf(membersA) == SetOf(disabledB) * SetOf(membersB)
  {
    var wa, wb := Within(disabledA, Listing(membersA)), Within(disabledB, Listing(membersB));
    ListingBySet(membersA, membersB);
    ListingBySet(wa, wb);
    WithinIsMeet(disabledA, membersA);
    WithinIsMeet(disabledB, membersB);
    if VehiclePreimage(membersA, disabledA) == VehiclePreimage(membersB, disabledB) {
      MarkSplits(Listing(membersA), Listing(wa), Listing(membersB), Listing(wb));
    }
  }

  /** A listing is determined by the set it lists, and determines it. */
  lemma {:induction false} ListingBySet(a: seq<int>, b: seq<int>)
    ensures Listing(a) == Listing(b) <==> SetOf(a) == SetOf(b)
  {
    ListingLists(a);
    ListingLists(b);
    if SetOf(a) == SetOf(b) {
      forall x ensures x in Listing(a) <==> x in Listing(b) {
        assert x in a <==> x in SetOf(a);
        assert x in b <==> x in SetOf(b);
      }
      IncreasingUnique(Listing(a), Listing(b));
    }
    if Listing(a) == Listing(b) {
      forall x ensures x in SetOf(a) <==> x in SetOf(b) {
        assert x in Listing(a) <==> x in a;
        assert x in Listing(b) <==> x in b;
      }
    }
  }

  lemma {:induction false} WithinIsMeet(disabled: seq<int>, members: seq<int>)
    ensures SetOf(Within(disabled, Listing(members))) == SetOf(disabled) * SetOf(members)
  {
    WithinMembers(disabled, Listing(members));
    ListingLists(members);
    forall x ensures x in SetOf(Within(disabled, Listing(members))) <==> x in SetOf(disabled) * SetOf(members) {
      assert x in Within(disabled, Listing(members)) <==> x in disabled && x in Listing(members);
    }
  }

  // --- the text itself -------------------------------------------------------

  /**
   The text of a component, part by part: the kind's line, and for each part that comes last by id
   one line with its id, kind and printed content, NUL between them.
   */
  lemma {:induction false} ComponentText(kind: string, parts: seq<Part>, p: Part)
    requires forall i :: 0 <= i < |parts| ==> !Less(p.id, parts[i].id)
    ensures ComponentPreimage(kind, []) == kind + "\n"
    ensures ComponentPreimage(kind, parts + [p])
         == ComponentPreimage(kind, parts) + (p.id + "\0" + p.kind + "\0" + ToPrefixed(p.content) + "\n")
  {
    SortLast(parts, p);
    RecordsLast(SortById(parts), p);
    Associative(kind + "\n", Records(SortById(parts)), Record(p));
  }

  lemma {:induction false} RecordsLast(parts: seq<Part>, p: Part)
    ensures Records([]) == ""
    ensures Records(parts + [p]) == Records(parts) + Record(p)
  {
    assert RecordList(parts + [p]) == RecordList(parts) + [Record(p)];
    FlattenSnoc(RecordList(parts), Record(p));
  }

  lemma {:induction false} ListingSame(a: seq<int>, b: seq<int>)
    requires forall x :: x in a <==> x in b
    ensures Listing(a) == Listing(b)
  {
    ListingLists(a);
    ListingLists(b);
    IncreasingUnique(Listing(a), Listing(b));
  }

  lemma {:induction false} PlainText(members: seq<int>)
    ensures VehiclePreimage(members, []) == Csv(Listing(members))
  {
    assert Within([], Listing(members)) == [] && Listing([]) == [];
  }

  lemma {:induction false} ListingLast(members: seq<int>, m: int)
    requires forall x :: x in members ==> x < m
    ensures Listing(members + [m]) == Listing(members) + [m]
  {
    ListingLists(members);
    ListingLists(members + [m]);
    var list := Listing(members);
    assert forall i :: 0 <= i < |list| ==> list[i] in list;
    IncreasingUnique(Listing(members + [m]), list + [m]);
  }

  lemma {:induction false} CsvSnoc(s: seq<int>, n: int)
    ensures Csv(s + [n]) == Csv(s) + (if s == [] then "" else ",") + Decimal(n)
  {
    var d := Decimals(s + [n]);
    assert d[..|d| - 1] == Decimals(s);
    assert s == [] ==> d == [Decimal(n)];
  }

  /** The text of a vehicle's members, one by one: in ascending order, with commas between. */
  lemma {:induction false} VehicleText(members: seq<int>, m: int)
    requires forall x :: x in members ==> x < m
    ensures VehiclePreimage([], []) == ""
    ensures VehiclePreimage(members + [m], [])
         == VehiclePreimage(members, []) + (if members == [] then "" else ",") + Decimal(m)
  {
    PlainText([]);
    PlainText(members);
    PlainText(members + [m]);
    ListingLast(members, m);
    CsvSnoc(Listing(members), m);
    ListingEmpty([]);
    ListingEmpty(members);
    CsvPlain([]);
  }

  lemma {:induction false} ListingEmpty(s: seq<int>)
    ensures Listing(s) == [] <==> s == []
  {
    SortIntsLength(s);
    DedupEmpty(SortInts(s));
  }

  lemma {:induction false} SortIntsLength(s: seq<int>)
    ensures |SortInts(s)| == |s|
  {
    if s != [] {
      SortIntsLength(s[..|s| - 1]);
      InsertIntLength(SortInts(s[..|s| - 1]), s[|s| - 1]);
    }
  }

  lemma {:induction false} InsertIntLength(sorted: seq<int>, n: int)
    ensures |InsertInt(sorted, n)| == |sorted| + 1
  {
    if sorted != [] && n >= sorted[0] {
      InsertIntLength(sorted[1..], n);
    }
  }

  lemma {:induction false} DedupEmpty(s: seq<int>)
    ensures Dedup(s) == [] <==> s == []
  {
    if |s| > 1 {
      DedupEmpty(s[..|s| - 1]);
    }
  }

  /** The disabled members, if any, follow after a marker, written the same way; other disabled ids leave no trace. */
  lemma {:induction false} DisabledText(members: seq<int>, disabled: seq<int>, kept: seq<int>)
    requires forall x :: x in kept <==> x in disabled && x in members
    ensures VehiclePreimage(members, disabled)
         == VehiclePreimage(members, []) + if kept == [] then "" else "\ndisabled:" + VehiclePreimage(kept, [])
  {
    PlainText(members);
    PlainText(kept);
    ListingEmpty(kept);
    ListingLists(members);
    WithinMembers(disabled, Listing(members));
    ListingSame(Within(disabled, Listing(members)), kept);
  }
}
