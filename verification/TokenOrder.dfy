/**
 Interleaved token calls reduced to calls one after another. Only the lock holder looks at the
 cache, so in every run the cache and the mint count are those of the served calls in the order
 they held the lock; how many mints a run costs then depends only on the boot ids in that order.
 */
module TokenOrder {
  import opened Collections
  import opened TokenCache

  // --- the order in which calls are served -----------------------------------

  ghost predicate ServesAt(s: State, t: State, i: nat)
  {
    i < |s.calls| && i < |t.calls| && !s.calls[i].Done? && t.calls[i].Done?
  }

  /** The read of the call a step serves, if it serves one. */
  ghost function ServedNow(s: State, t: State): seq<nat>
  {
    if exists i: nat :: ServesAt(s, t, i) then
      var i: nat :| ServesAt(s, t, i);
      [t.calls[i].read]
    else []
  }

  /** The reads of the calls served so far, in the order they were served under the lock. */
  ghost function Order(run: seq<State>, k: nat): seq<nat>
    requires k < |run|
  {
    if k == 0 then [] else Order(run, k - 1) + ServedNow(run[k - 1], run[k])
  }

  /** Cache and mint count are those of these calls made one after another, all succeeding, with these reads. */
  ghost predicate Behaves(s: State, order: seq<nat>, calls: seq<Call>)
  {
    && |calls| == |order| && AllSucceed(calls)
    && (forall i :: 0 <= i < |order| ==> order[i] < |s.boots| && calls[i].boot == Some(s.boots[order[i]]))
    && AfterCalls(calls) == (s.cache, s.mints)
  }

  lemma {:induction false} OnlyOneServed(s: State, t: State, i: nat, phase: Phase)
    requires i < |s.calls| && t.calls == Moved(s, i, phase).calls
    ensures ServedNow(s, t) == if !s.calls[i].Done? && phase.Done? then [phase.read] else []
  {
    assert ServesAt(s, t, i) <==> !s.calls[i].Done? && phase.Done?;
    assert forall j: nat :: ServesAt(s, t, j) ==> j == i;
  }

  lemma {:induction false} NoneServed(s: State, t: State)
    requires s.calls <= t.calls
    ensures ServedNow(s, t) == []
  {
    assert forall j: nat :: j < |s.calls| ==> t.calls[j] == s.calls[j];
  }

  lemma {:induction false} Answered(calls: seq<Call>, c: Call)
    ensures var (cache, mints) := AfterCalls(calls);
            AfterCalls(calls + [c]) == (Answer(cache, mints, c).0, Answer(cache, mints, c).1)
  {
    assert (calls + [c])[..|calls|] == calls;
  }

  /** One more call served, whether from the cache or by minting. */
  lemma {:induction false} ServeOne(s: State, t: State, order: seq<nat>, calls: seq<Call>, k: nat, ecu: string) returns (more: seq<Call>)
    requires Behaves(s, order, calls) && k < |s.boots| && t.boots == s.boots
    requires var (cache, mints, _) := Answer(s.cache, s.mints, Call(Some(s.boots[k]), Some(ecu), true));
             t.cache == cache && t.mints == mints
    ensures Behaves(t, order + [k], more)
  {
    var c := Call(Some(s.boots[k]), Some(ecu), true);
    more := calls + [c];
    Answered(calls, c);
  }

  lemma {:induction false} ActOrder(s: State, t: State, i: nat, order: seq<nat>, calls: seq<Call>) returns (more: seq<Call>)
    requires Inv(s) && i < |s.calls| && Acts(s, t, i) && Behaves(s, order, calls)
    ensures Behaves(t, order + ServedNow(s, t), more)
  {
    more := calls;
    assert CallOk(s, i, s.calls[i]);
    match s.calls[i]
    case Fresh =>
      OnlyOneServed(s, t, i, Read(|s.boots| - 1));
      assert order + [] == order;
    case Read(k) =>
      OnlyOneServed(s, t, i, Holding(k));
      assert order + [] == order;
    case Holding(k) =>
      if CachedFor(s.cache, s.boots[k]) {
        OnlyOneServed(s, t, i, Done(k, s.cache.value.1));
        more := ServeOne(s, t, order, calls, k, "");
      } else {
        OnlyOneServed(s, t, i, Minting(k));
        assert order + [] == order;
      }
    case Minting(k) =>
      var ecu: string :| var token := Token(ecu, s.boots[k], s.mints);
        t == Moved(s, i, Done(k, token)).(holder := None, cache := Some((s.boots[k], token)), mints := s.mints + 1);
      OnlyOneServed(s, t, i, Done(k, Token(ecu, s.boots[k], s.mints)));
      more := ServeOne(s, t, order, calls, k, ecu);
  }

  lemma {:induction false} StepOrder(s: State, t: State, order: seq<nat>, calls: seq<Call>) returns (more: seq<Call>)
    requires Inv(s) && Next(s, t) && Behaves(s, order, calls)
    ensures Behaves(t, order + ServedNow(s, t), more)
  {
    more := calls;
    if i: nat :| i < |s.calls| && Acts(s, t, i) {
      more := ActOrder(s, t, i, order, calls);
    } else if i: nat :| i < |s.calls| && Fails(s, t, i) {
      OnlyOneServed(s, t, i, Failed);
      assert order + [] == order;
    } else {
      NoneServed(s, t);
      assert order + [] == order;
    }
  }

  /**
   In every run, at every point, the cache and the mint count are those of the served calls made one
   after another in lock order.
   */
  lemma {:induction false} LockOrder(run: seq<State>, boot: string, k: nat) returns (calls: seq<Call>)
    requires ValidRun(run, boot) && k < |run|
    ensures Behaves(run[k], Order(run, k), calls)
  {
    calls := [];
    if k > 0 {
      var init := LockOrder(run, boot, k - 1);
      RunInv(run, boot, k - 1);
      assert Linked(run, k - 1);
      calls := StepOrder(run[k - 1], run[k], Order(run, k - 1), init);
    }
  }

  // --- how many mints that is ------------------------------------------------

  /** How often the sequence starts something other than what it just had. */
  function Blocks(ids: seq<string>): nat
  {
    if ids == [] then 0
    else Blocks(ids[..|ids| - 1]) + if |ids| > 1 && ids[|ids| - 2] == ids[|ids| - 1] then 0 else 1
  }

  function Ids(ids: seq<string>): set<string>
  {
    set x | x in ids
  }

  /** What was left is never come back to. */
  ghost predicate NeverReturns(ids: seq<string>)
  {
    forall i, j, k :: 0 <= i < j < k < |ids| && ids[i] == ids[k] ==> ids[j] == ids[k]
  }

  lemma {:induction false} IdsSnoc(ids: seq<string>)
    requires ids != []
    ensures Ids(ids) == Ids(ids[..|ids| - 1]) + {ids[|ids| - 1]}
  {
    assert ids == ids[..|ids| - 1] + [ids[|ids| - 1]];
  }

  /** A block per different id, and exactly one each when nothing left is come back to. */
  lemma {:induction false} BlocksExact(ids: seq<string>)
    ensures |Ids(ids)| <= Blocks(ids)
    ensures |Ids(ids)| == Blocks(ids) <==> NeverReturns(ids)
  {
    if ids != [] {
      var n := |ids| - 1;
      var init, last := ids[..n], ids[n];
      BlocksExact(init);
      IdsSnoc(ids);
      if n > 0 && ids[n - 1] == last {
        assert init[n - 1] in init;
        assert Ids(ids) == Ids(init);
        StayingKeeps(ids);
      } else if last in init {
        assert Ids(ids) == Ids(init);
        ComingBack(ids);
      } else {
        assert |Ids(ids)| == |Ids(init)| + 1;
        NewKeeps(ids);
      }
    }
  }

  lemma {:induction false} PrefixNeverReturns(ids: seq<string>)
    requires ids != [] && NeverReturns(ids)
    ensures NeverReturns(ids[..|ids| - 1])
  {
    assert forall i :: 0 <= i < |ids| - 1 ==> ids[..|ids| - 1][i] == ids[i];
  }

  lemma {:induction false} StayingKeeps(ids: seq<string>)
    requires |ids| > 1 && ids[|ids| - 2] == ids[|ids| - 1]
    ensures NeverReturns(ids) <==> NeverReturns(ids[..|ids| - 1])
  {
    var n := |ids| - 1;
    var init := ids[..n];
    assert forall i :: 0 <= i < n ==> init[i] == ids[i];
    if NeverReturns(init) {
      forall i, j, k | 0 <= i < j < k < |ids| && ids[i] == ids[k] ensures ids[j] == ids[k] {
        if k == n && j < n - 1 {
          assert init[i] == init[n - 1] && init[j] == init[n - 1];
        } else if k < n {
          assert init[i] == init[k] && init[j] == init[k];
        }
      }
    }
    if NeverReturns(ids) {
      PrefixNeverReturns(ids);
    }
  }

  lemma {:induction false} ComingBack(ids: seq<string>)
    requires |ids| > 1 && ids[|ids| - 2] != ids[|ids| - 1] && ids[|ids| - 1] in ids[..|ids| - 1]
    ensures !NeverReturns(ids)
  {
    var n := |ids| - 1;
    var i :| 0 <= i < n && ids[..n][i] == ids[n];
    assert ids[i] == ids[n] && i < n - 1 && ids[n - 1] != ids[n];
  }

  lemma {:induction false} NewKeeps(ids: seq<string>)
    requires ids != [] && ids[|ids| - 1] !in ids[..|ids| - 1]
    ensures NeverReturns(ids) <==> NeverReturns(ids[..|ids| - 1])
  {
    var n := |ids| - 1;
    var init := ids[..n];
    assert forall i :: 0 <= i < n ==> init[i] == ids[i] && init[i] in init;
    if NeverReturns(init) {
      forall i, j, k | 0 <= i < j < k < |ids| && ids[i] == ids[k] ensures ids[j] == ids[k] {
        if k < n {
          assert init[i] == init[k] && init[j] == init[k];
        }
      }
    }
    if NeverReturns(ids) {
      PrefixNeverReturns(ids);
    }
  }

  lemma {:induction false} BlocksAreChanges(calls: seq<Call>, ids: seq<string>)
    requires |calls| == |ids| && forall i :: 0 <= i < |ids| ==> calls[i].boot == Some(ids[i])
    ensures Blocks(ids) == if calls == [] then 0 else 1 + BootChanges(calls)
  {
    if |calls| > 1 {
      BlocksAreChanges(calls[..|calls| - 1], ids[..|ids| - 1]);
    } else if |calls| == 1 {
      assert Blocks(ids[..0]) == 0;
    }
  }

  /** The boot ids of the served calls, in lock order. */
  ghost function BootsServed(s: State, order: seq<nat>): seq<string>
    requires forall i :: 0 <= i < |order| ==> order[i] < |s.boots|
  {
    seq(|order|, i requires 0 <= i < |order| => s.boots[order[i]])
  }

  /**
   Once per boot, exactly: however calls interleave, a run mints once for every block of equal boot
   ids in lock order, so it mints once per boot id it serves if and only if no call locks with a boot
   id after one with another boot id came between it and an earlier call with the same.
   */
  lemma {:induction false} OncePerBoot(run: seq<State>, boot: string, k: nat)
    requires ValidRun(run, boot) && k < |run|
    ensures forall i :: 0 <= i < |Order(run, k)| ==> Order(run, k)[i] < |run[k].boots|
    ensures var ids := BootsServed(run[k], Order(run, k));
            && run[k].mints == Blocks(ids)
            && (run[k].mints == |Ids(ids)| <==> NeverReturns(ids))
  {
    var calls := LockOrder(run, boot, k);
    var ids := BootsServed(run[k], Order(run, k));
    MintsCounted(calls);
    BlocksAreChanges(calls, ids);
    BlocksExact(ids);
  }

  // --- every served call is in the order -------------------------------------

  ghost function DoneCalls(s: State): set<nat>
  {
    set i: nat | i < |s.calls| && s.calls[i].Done?
  }

  lemma {:induction false} ActShape(s: State, t: State, i: nat)
    requires s.boots != [] && i < |s.calls| && (Acts(s, t, i) || Fails(s, t, i))
    ensures !s.calls[i].Done? && i < |t.calls| && t.calls == Moved(s, i, t.calls[i]).calls
  {
  }

  lemma {:induction false} MoveCounts(s: State, t: State, i: nat, phase: Phase)
    requires i < |s.calls| && !s.calls[i].Done? && t.calls == Moved(s, i, phase).calls
    ensures |DoneCalls(t)| == |DoneCalls(s)| + |ServedNow(s, t)|
  {
    OnlyOneServed(s, t, i, phase);
    assert i !in DoneCalls(s);
    assert DoneCalls(t) == if phase.Done? then DoneCalls(s) + {i} else DoneCalls(s);
  }

  lemma {:induction false} StepCounts(s: State, t: State)
    requires Inv(s) && Next(s, t)
    ensures |DoneCalls(t)| == |DoneCalls(s)| + |ServedNow(s, t)|
  {
    if i: nat :| i < |s.calls| && (Acts(s, t, i) || Fails(s, t, i)) {
      ActShape(s, t, i);
      MoveCounts(s, t, i, t.calls[i]);
    } else {
      NoneServed(s, t);
      assert DoneCalls(t) == DoneCalls(s);
    }
  }

  /** Each call that got a token counts once in the order. */
  lemma {:induction false} OrderCounts(run: seq<State>, boot: string, k: nat)
    requires ValidRun(run, boot) && k < |run|
    ensures |Order(run, k)| == |DoneCalls(run[k])|
  {
    if k > 0 {
      OrderCounts(run, boot, k - 1);
      RunInv(run, boot, k - 1);
      assert Linked(run, k - 1);
      StepCounts(run[k - 1], run[k]);
    } else {
      assert DoneCalls(run[0]) == {};
    }
  }
}
