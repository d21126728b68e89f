/** Building blocks of the canonical encodings: sorting parts by id, terminated lists, decimal numbers. */
module Canonical {
  import opened Collections
  import opened Ordering
  import opened ContentHashes
  import opened Wire
  import opened WireTheorems

  // --- parts sorted by id ----------------------------------------------------

  /** Place a part before the first one with a greater id: one step of a stable sort. */
  function Insert(sorted: seq<Part>, p: Part): seq<Part>
  {
    if sorted == [] || Less(p.id, sorted[0].id) then [p] + sorted
    else [sorted[0]] + Insert(sorted[1..], p)
  }

  function SortById(parts: seq<Part>): seq<Part>
  {
    if parts == [] then [] else Insert(SortById(parts[..|parts| - 1]), parts[|parts| - 1])
  }

  ghost predicate AscendingIds(parts: seq<Part>)
  {
    forall i, j :: 0 <= i < j < |parts| ==> Less(parts[i].id, parts[j].id)
  }

  lemma {:induction false} InsertHolds(sorted: seq<Part>, p: Part)
    ensures multiset(Insert(sorted, p)) == multiset(sorted) + multiset{p}
  {
    if sorted != [] && !Less(p.id, sorted[0].id) {
      assert sorted == [sorted[0]] + sorted[1..];
      InsertHolds(sorted[1..], p);
    }
  }

  lemma {:induction false} InsertKeeps(sorted: seq<Part>, p: Part)
    requires AscendingIds(sorted) && p.id !in Ids(sorted)
    ensures AscendingIds(Insert(sorted, p))
  {
    if sorted != [] && !Less(p.id, sorted[0].id) {
      var first, rest := sorted[0], sorted[1..];
      assert first in sorted;
      LessTotal(p.id, first.id);
      assert Ids(rest) <= Ids(sorted);
      InsertKeeps(rest, p);
      assert forall j :: 0 <= j < |rest| ==> rest[j] == sorted[j + 1];
      FirstStaysFirst(first, rest, p);
      ConsAscends(first, Insert(rest, p));
    } else if sorted != [] {
      forall j | 0 < j < |sorted| ensures Less(p.id, sorted[j].id) {
        LessTransitive(p.id, sorted[0].id, sorted[j].id);
      }
      ConsAscends(p, sorted);
    }
  }

  lemma {:induction false} ConsAscends(first: Part, rest: seq<Part>)
    requires AscendingIds(rest) && forall j :: 0 <= j < |rest| ==> Less(first.id, rest[j].id)
    ensures AscendingIds([first] + rest)
  {
  }

  lemma {:induction false} FirstStaysFirst(first: Part, rest: seq<Part>, p: Part)
    requires Less(first.id, p.id) && forall j :: 0 <= j < |rest| ==> Less(first.id, rest[j].id)
    ensures forall j :: 0 <= j < |Insert(rest, p)| ==> Less(first.id, Insert(rest, p)[j].id)
  {
    InsertHolds(rest, p);
    var tail := Insert(rest, p);
    forall j | 0 <= j < |tail| ensures Less(first.id, tail[j].id) {
      assert tail[j] in multiset(tail);
      assert tail[j] in rest || tail[j] == p;
    }
  }

  /** Sorting rearranges; with distinct ids the result is strictly ascending. */
  lemma {:induction false} SortSorts(parts: seq<Part>)
    ensures multiset(SortById(parts)) == multiset(parts)
    ensures DistinctIds(parts) ==> AscendingIds(SortById(parts))
  {
    if parts != [] {
      var init, last := parts[..|parts| - 1], parts[|parts| - 1];
      assert parts == init + [last];
      SortSorts(init);
      InsertHolds(SortById(init), last);
      if DistinctIds(parts) {
        assert DistinctIds(init);
        forall p | p in SortById(init) ensures p.id != last.id {
          assert p in multiset(SortById(init));
          var i :| 0 <= i < |init| && init[i] == p;
          assert parts[i].id != last.id;
        }
        InsertKeeps(SortById(init), last);
      }
    }
  }

  lemma {:induction false} InsertLast(sorted: seq<Part>, p: Part)
    requires forall i :: 0 <= i < |sorted| ==> !Less(p.id, sorted[i].id)
    ensures Insert(sorted, p) == sorted + [p]
  {
    if sorted != [] {
      InsertLast(sorted[1..], p);
      assert sorted == [sorted[0]] + sorted[1..];
    }
  }

  /** A part with the greatest id sorts to the end, after those that share its id. */
  lemma {:induction false} SortLast(parts: seq<Part>, p: Part)
    requires forall i :: 0 <= i < |parts| ==> !Less(p.id, parts[i].id)
    ensures SortById(parts + [p]) == SortById(parts) + [p]
  {
    var sorted := SortById(parts);
    SortSorts(parts);
    forall i | 0 <= i < |sorted| ensures !Less(p.id, sorted[i].id) {
      assert sorted[i] in multiset(sorted);
      var k :| 0 <= k < |parts| && parts[k] == sorted[i];
    }
    assert (parts + [p])[..|parts|] == parts;
    InsertLast(sorted, p);
  }

  lemma {:induction false} AscendingPartsUnique(a: seq<Part>, b: seq<Part>)
    requires AscendingIds(a) && AscendingIds(b)
    requires forall p :: p in a <==> p in b
    ensures a == b
  {
    assert a != [] ==> a[0] in a;
    assert b != [] ==> b[0] in b;
    if a != [] && b != [] {
      if a[0] != b[0] {
        var i :| 0 < i < |b| && b[i] == a[0];
        var j :| 0 < j < |a| && a[j] == b[0];
        LessAsymmetric(a[0].id, b[0].id);
        assert false;
      }
      LessIrreflexive(a[0].id);
      assert forall p :: p in a <==> p == a[0] || p in a[1..];
      assert forall p :: p in b <==> p == b[0] || p in b[1..];
      assert a[0] !in a[1..] && b[0] !in b[1..];
      AscendingPartsUnique(a[1..], b[1..]);
      assert a == [a[0]] + a[1..] && b == [b[0]] + b[1..];
    }
  }

  /** Row order does not matter: parts with distinct ids sort to the same list exactly when they are the same parts. */
  lemma {:induction false} SortCanonical(a: seq<Part>, b: seq<Part>)
    requires DistinctIds(a) && DistinctIds(b)
    ensures SortById(a) == SortById(b) <==> multiset(a) == multiset(b)
  {
    SortSorts(a);
    SortSorts(b);
    if multiset(a) == multiset(b) {
      forall p ensures p in SortById(a) <==> p in SortById(b) {
        assert p in SortById(a) <==> p in multiset(SortById(a));
        assert p in SortById(b) <==> p in multiset(SortById(b));
      }
      AscendingPartsUnique(SortById(a), SortById(b));
    }
  }

  // --- the sort is stable ----------------------------------------------------

  ghost predicate SortedIds(parts: seq<Part>)
  {
    forall i, j :: 0 <= i < j < |parts| ==> !Less(parts[j].id, parts[i].id)
  }

  /** The parts with this id, in their order. */
  function WithId(parts: seq<Part>, id: string): seq<Part>
  {
    if parts == [] then [] else (if parts[0].id == id then [parts[0]] else []) + WithId(parts[1..], id)
  }

  lemma {:induction false} WithIdAppend(a: seq<Part>, b: seq<Part>, id: string)
    ensures WithId(a + b, id) == WithId(a, id) + WithId(b, id)
  {
    if a == [] {
      assert a + b == b;
    } else {
      WithIdAppend(a[1..], b, id);
      assert (a + b)[1..] == a[1..] + b;
      Associative(if a[0].id == id then [a[0]] else [], WithId(a[1..], id), WithId(b, id));
    }
  }

  lemma {:induction false} WithIdTail(parts: seq<Part>, id: string)
    requires parts != []
    ensures parts[0].id == id ==> WithId(parts, id) != []
    ensures WithId(parts[1..], id) == if parts[0].id == id then WithId(parts, id)[1..] else WithId(parts, id)
  {
  }

  lemma {:induction false} NoneWithId(parts: seq<Part>, id: string)
    requires forall i :: 0 <= i < |parts| ==> parts[i].id != id
    ensures WithId(parts, id) == []
  {
    if parts != [] {
      NoneWithId(parts[1..], id);
    }
  }

  lemma {:induction false} ConsSorted(first: Part, rest: seq<Part>)
    requires SortedIds(rest) && forall j :: 0 <= j < |rest| ==> !Less(rest[j].id, first.id)
    ensures SortedIds([first] + rest)
  {
  }

  lemma {:induction false} InsertSorted(sorted: seq<Part>, p: Part)
    requires SortedIds(sorted)
    ensures SortedIds(Insert(sorted, p))
  {
    if sorted != [] && !Less(p.id, sorted[0].id) {
      var first, rest := sorted[0], sorted[1..];
      InsertSorted(rest, p);
      InsertHolds(rest, p);
      var tail := Insert(rest, p);
      forall j | 0 <= j < |tail| ensures !Less(tail[j].id, first.id) {
        assert tail[j] in multiset(tail);
        assert tail[j] in rest || tail[j] == p;
      }
      ConsSorted(first, tail);
    } else if sorted != [] {
      forall j | 0 <= j < |sorted| ensures !Less(sorted[j].id, p.id) {
        AboveFirst(sorted, p, j);
      }
      ConsSorted(p, sorted);
    }
  }

  lemma {:induction false} AboveFirst(sorted: seq<Part>, p: Part, j: nat)
    requires SortedIds(sorted) && j < |sorted| && Less(p.id, sorted[0].id)
    ensures Less(p.id, sorted[j].id) && !Less(sorted[j].id, p.id)
  {
    LessTotal(sorted[0].id, sorted[j].id);
    if Less(sorted[0].id, sorted[j].id) {
      LessTransitive(p.id, sorted[0].id, sorted[j].id);
    }
    LessAsymmetric(p.id, sorted[j].id);
  }

  /** A part goes behind those with its own id. */
  lemma {:induction false} InsertStable(sorted: seq<Part>, p: Part, id: string)
    requires SortedIds(sorted)
    ensures WithId(Insert(sorted, p), id) == WithId(sorted, id) + WithId([p], id)
  {
    if sorted != [] && !Less(p.id, sorted[0].id) {
      InsertStable(sorted[1..], p, id);
    } else {
      WithIdAppend([p], sorted, id);
      if sorted != [] && p.id == id {
        forall j | 0 <= j < |sorted| ensures sorted[j].id != id {
          AboveFirst(sorted, p, j);
          LessIrreflexive(id);
        }
        NoneWithId(sorted, id);
      }
    }
  }

  /** Sorting by id leaves the parts of each id in their order. */
  lemma {:induction false} SortStable(parts: seq<Part>)
    ensures SortedIds(SortById(parts))
    ensures forall id :: WithId(SortById(parts), id) == WithId(parts, id)
  {
    if parts != [] {
      var init, last := parts[..|parts| - 1], parts[|parts| - 1];
      SortStable(init);
      InsertSorted(SortById(init), last);
      forall id ensures WithId(SortById(parts), id) == WithId(parts, id) {
        InsertStable(SortById(init), last, id);
        WithIdAppend(init, [last], id);
        assert parts == init + [last];
      }
    }
  }

  lemma {:induction false} FirstOfId(parts: seq<Part>)
    requires parts != []
    ensures WithId(parts, parts[0].id) == [parts[0]] + WithId(parts[1..], parts[0].id)
  {
  }

  lemma {:induction false} HasId(parts: seq<Part>, id: string) returns (i: nat)
    requires WithId(parts, id) != []
    ensures i < |parts| && parts[i].id == id
  {
    i := 0;
    if parts[0].id != id {
      var k := HasId(parts[1..], id);
      i := k + 1;
    }
  }

  /** Some part of `a` comes first in `b`, so it is not above the first of `a`. */
  lemma {:induction false} FirstNotAbove(a: seq<Part>, b: seq<Part>)
    requires SortedIds(a) && a != [] && b != [] && WithId(a, b[0].id) == WithId(b, b[0].id)
    ensures !Less(b[0].id, a[0].id)
  {
    FirstOfId(b);
    var i := HasId(a, b[0].id);
    LessIrreflexive(b[0].id);
    assert i > 0 ==> !Less(a[i].id, a[0].id);
  }

  /** Sorted lists that agree id by id are equal. */
  lemma {:induction false} SortedUnique(a: seq<Part>, b: seq<Part>)
    requires SortedIds(a) && SortedIds(b) && forall id :: WithId(a, id) == WithId(b, id)
    ensures a == b
  {
    if a != [] {
      FirstOfId(a);
    }
    if b != [] {
      FirstOfId(b);
    }
    assert a != [] ==> WithId(b, a[0].id) != [];
    assert b != [] ==> WithId(a, b[0].id) != [];
    if a != [] && b != [] {
      FirstNotAbove(a, b);
      FirstNotAbove(b, a);
      LessTotal(a[0].id, b[0].id);
      assert a[0] == WithId(a, a[0].id)[0] == b[0];
      forall id ensures WithId(a[1..], id) == WithId(b[1..], id) {
        WithIdTail(a, id);
        WithIdTail(b, id);
      }
      SortedUnique(a[1..], b[1..]);
      assert a == [a[0]] + a[1..] && b == [b[0]] + b[1..];
    }
  }

  /** The same parts for every id, in the same order. */
  ghost predicate SameById(a: seq<Part>, b: seq<Part>)
  {
    forall id :: WithId(a, id) == WithId(b, id)
  }

  /** For all lists: two sort to the same list exactly when they have the same parts for every id in the same order. */
  lemma {:induction false} SortExact(a: seq<Part>, b: seq<Part>)
    ensures SortById(a) == SortById(b) <==> SameById(a, b)
  {
    SortStable(a);
    SortStable(b);
    if SameById(a, b) {
      SortedUnique(SortById(a), SortById(b));
    }
    if SortById(a) == SortById(b) {
      forall id ensures WithId(a, id) == WithId(b, id) {
        assert WithId(SortById(a), id) == WithId(a, id);
      }
    }
  }

  lemma {:induction false} SortedFixed(parts: seq<Part>)
    requires SortedIds(parts)
    ensures SortById(parts) == parts
  {
    SortStable(parts);
    SortedUnique(SortById(parts), parts);
  }

  // --- when row order cannot show --------------------------------------------

  /** Parts that share an id are equal. */
  ghost predicate RepeatsAgree(parts: seq<Part>)
  {
    forall p, q :: p in parts && q in parts && p.id == q.id ==> p == q
  }

  lemma {:induction false} CountWithId(parts: seq<Part>, id: string, p: Part)
    ensures multiset(WithId(parts, id))[p] == if p.id == id then multiset(parts)[p] else 0
  {
    if parts != [] {
      CountWithId(parts[1..], id, p);
      assert parts == [parts[0]] + parts[1..];
      var head := if parts[0].id == id then [parts[0]] else [];
      assert WithId(parts, id) == head + WithId(parts[1..], id);
    }
  }

  /** A list of equal elements is its only rearrangement. */
  lemma {:induction false} UniformUnique(a: seq<Part>, b: seq<Part>)
    requires multiset(a) == multiset(b) && forall i, j :: 0 <= i < |a| && 0 <= j < |a| ==> a[i] == a[j]
    ensures a == b
  {
    assert |a| == |multiset(a)| == |multiset(b)| == |b|;
    forall i | 0 <= i < |a| ensures a[i] == b[i] {
      assert b[i] in multiset(b);
      assert b[i] in a;
    }
  }

  lemma {:induction false} WithIdMembers(parts: seq<Part>, id: string)
    ensures forall i :: 0 <= i < |WithId(parts, id)| ==> WithId(parts, id)[i] in parts && WithId(parts, id)[i].id == id
  {
    forall i | 0 <= i < |WithId(parts, id)| ensures WithId(parts, id)[i] in parts && WithId(parts, id)[i].id == id {
      var p := WithId(parts, id)[i];
      assert p in multiset(WithId(parts, id));
      CountWithId(parts, id, p);
      assert p in multiset(parts);
    }
  }

  /** When repeats agree, every rearrangement has the same parts for every id in the same order. */
  lemma {:induction false} RearrangedSame(a: seq<Part>, b: seq<Part>)
    requires multiset(a) == multiset(b) && RepeatsAgree(a)
    ensures SameById(a, b)
  {
    forall id ensures WithId(a, id) == WithId(b, id) {
      forall p ensures multiset(WithId(a, id))[p] == multiset(WithId(b, id))[p] {
        CountWithId(a, id, p);
        CountWithId(b, id, p);
      }
      WithIdMembers(a, id);
      UniformUnique(WithId(a, id), WithId(b, id));
    }
  }

  /** In a sorted list, parts of one id that differ in some respect do so next to each other somewhere. */
  lemma {:induction false} AdjacentClash<K>(sorted: seq<Part>, key: Part -> K, i: nat, j: nat) returns (k: nat)
    requires SortedIds(sorted) && i < j < |sorted| && sorted[i].id == sorted[j].id && key(sorted[i]) != key(sorted[j])
    ensures k + 1 < |sorted| && sorted[k].id == sorted[k + 1].id && key(sorted[k]) != key(sorted[k + 1])
    decreases j - i
  {
    k := i;
    LessTotal(sorted[i].id, sorted[i + 1].id);
    assert !Less(sorted[i + 1].id, sorted[i].id);
    assert i + 1 < j ==> !Less(sorted[j].id, sorted[i + 1].id);
    if key(sorted[i]) == key(sorted[i + 1]) {
      k := AdjacentClash(sorted, key, i + 1, j);
    }
  }

  /** The list with two neighbours exchanged. */
  function Exchanged(parts: seq<Part>, k: nat): (r: seq<Part>)
    requires k + 1 < |parts|
    ensures |r| == |parts|
  {
    parts[..k] + [parts[k + 1], parts[k]] + parts[k + 2..]
  }

  lemma {:induction false} ExchangedSame(parts: seq<Part>, k: nat)
    requires k + 1 < |parts|
    ensures multiset(Exchanged(parts, k)) == multiset(parts)
    ensures parts == parts[..k] + [parts[k], parts[k + 1]] + parts[k + 2..]
  {
    assert parts == parts[..k] + [parts[k], parts[k + 1]] + parts[k + 2..];
    assert multiset([parts[k], parts[k + 1]]) == multiset([parts[k + 1], parts[k]]);
  }

  lemma {:induction false} ExchangedSorted(parts: seq<Part>, k: nat)
    requires k + 1 < |parts| && SortedIds(parts) && parts[k].id == parts[k + 1].id
    ensures SortedIds(Exchanged(parts, k))
  {
    var r := Exchanged(parts, k);
    assert forall i :: 0 <= i < |parts| ==> r[i].id == parts[i].id;
  }

  // --- terminated lists ------------------------------------------------------

  /** Every piece followed by the terminator. */
  function Terminated(t: char, pieces: seq<string>): string
  {
    if pieces == [] then [] else Terminated(t, pieces[..|pieces| - 1]) + pieces[|pieces| - 1] + [t]
  }

  lemma {:induction false} TerminatedSnoc(t: char, pieces: seq<string>, last: string)
    ensures Terminated(t, pieces + [last]) == Terminated(t, pieces) + last + [t]
  {
    assert (pieces + [last])[..|pieces|] == pieces;
  }

  lemma {:induction false} TerminatedCons(t: char, first: string, pieces: seq<string>)
    ensures Terminated(t, [first] + pieces) == first + [t] + Terminated(t, pieces)
  {
    if pieces == [] {
      assert [first] + pieces == [] + [first];
      TerminatedSnoc(t, [], first);
    } else {
      var init, last := pieces[..|pieces| - 1], pieces[|pieces| - 1];
      TerminatedCons(t, first, init);
      assert [first] + pieces == ([first] + init) + [last];
      TerminatedSnoc(t, [first] + init, last);
    }
  }

  lemma {:induction false} TerminatedAppend(t: char, a: seq<string>, b: seq<string>)
    ensures Terminated(t, a + b) == Terminated(t, a) + Terminated(t, b)
  {
    if b == [] {
      assert a + b == a;
    } else {
      var init, last := b[..|b| - 1], b[|b| - 1];
      TerminatedAppend(t, a, init);
      assert a + b == (a + init) + [last];
      TerminatedSnoc(t, a + init, last);
      Associative(Terminated(t, a), Terminated(t, init), last);
      Associative(Terminated(t, a), Terminated(t, init) + last, [t]);
    }
  }

  ghost predicate Free(t: char, pieces: seq<string>)
  {
    forall s :: s in pieces ==> t !in s
  }

  /** Pieces that do not contain the terminator can be read back. */
  lemma {:induction false} TerminatedInjective(t: char, a: seq<string>, b: seq<string>)
    requires Free(t, a) && Free(t, b) && Terminated(t, a) == Terminated(t, b)
    ensures a == b
  {
    if a != [] && b != [] {
      assert a == [a[0]] + a[1..] && b == [b[0]] + b[1..];
      TerminatedCons(t, a[0], a[1..]);
      TerminatedCons(t, b[0], b[1..]);
      SplitUnique(t, a[0], Terminated(t, a[1..]), b[0], Terminated(t, b[1..]));
      TerminatedInjective(t, a[1..], b[1..]);
    }
  }

  // --- joined lists ----------------------------------------------------------

  /** Pieces separated, not terminated. */
  function Join(sep: char, pieces: seq<string>): string
  {
    if pieces == [] then []
    else if |pieces| == 1 then pieces[0]
    else Join(sep, pieces[..|pieces| - 1]) + [sep] + pieces[|pieces| - 1]
  }

  lemma {:induction false} JoinTerminated(sep: char, pieces: seq<string>)
    requires pieces != []
    ensures Join(sep, pieces) + [sep] == Terminated(sep, pieces)
  {
    if |pieces| > 1 {
      JoinTerminated(sep, pieces[..|pieces| - 1]);
    } else {
      assert Terminated(sep, pieces[..0]) == [];
    }
  }

  /** Non-empty pieces free of the separator can be read back. */
  lemma {:induction false} JoinInjective(sep: char, a: seq<string>, b: seq<string>)
    requires Free(sep, a) && Free(sep, b) && Join(sep, a) == Join(sep, b)
    requires (forall s :: s in a ==> s != []) && (forall s :: s in b ==> s != [])
    ensures a == b
  {
    if a != [] && b != [] {
      JoinTerminated(sep, a);
      JoinTerminated(sep, b);
      TerminatedInjective(sep, a, b);
    } else {
      JoinNonEmpty(sep, a);
      JoinNonEmpty(sep, b);
    }
  }

  lemma {:induction false} JoinNonEmpty(sep: char, pieces: seq<string>)
    requires forall s :: s in pieces ==> s != []
    ensures Join(sep, pieces) == [] <==> pieces == []
  {
    if |pieces| == 1 {
      assert pieces[0] in pieces;
    }
  }

  lemma {:induction false} JoinChars(sep: char, pieces: seq<string>, c: char)
    requires c != sep && Free(c, pieces)
    ensures c !in Join(sep, pieces)
  {
    if |pieces| > 1 {
      JoinChars(sep, pieces[..|pieces| - 1], c);
    }
  }

  // --- decimal numbers -------------------------------------------------------

  function DecimalNat(n: nat): (s: string)
    ensures s != [] && forall c :: c in s ==> '0' <= c <= '9'
  {
    if n < 10 then [DIGITS[n]] else DecimalNat(n / 10) + [DIGITS[n % 10]]
  }

  function DigitValue(c: char): nat
  {
    if '0' <= c <= '9' then c as int - '0' as int else 0
  }

  function ParseNat(s: string): nat
  {
    if s == [] then 0 else 10 * ParseNat(s[..|s| - 1]) + DigitValue(s[|s| - 1])
  }

  lemma {:induction false} DecimalNatRoundTrip(n: nat)
    ensures ParseNat(DecimalNat(n)) == n
  {
    if n >= 10 {
      DecimalNatRoundTrip(n / 10);
      var s := DecimalNat(n);
      assert s[..|s| - 1] == DecimalNat(n / 10);
    } else {
      assert DecimalNat(n)[..0] == [];
    }
  }

  /** A signed number in base ten, as `to_string` prints it. */
  function Decimal(n: int): (s: string)
    ensures s != [] && ',' !in s && '\n' !in s && '.' !in s
  {
    if n < 0 then "-" + DecimalNat(-n) else DecimalNat(n)
  }

  lemma {:induction false} DecimalInjective(a: int, b: int)
    requires Decimal(a) == Decimal(b)
    ensures a == b
  {
    DecimalNatRoundTrip(if a < 0 then -a else a);
    DecimalNatRoundTrip(if b < 0 then -b else b);
    assert a >= 0 ==> Decimal(a)[0] in Decimal(a);
    assert b >= 0 ==> Decimal(b)[0] in Decimal(b);
    if a < 0 && b < 0 {
      assert Decimal(a)[1..] == DecimalNat(-a) && Decimal(b)[1..] == DecimalNat(-b);
    }
  }
}
