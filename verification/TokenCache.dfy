/**
 The minted-token cache: one token per device boot, re-minted when the boot id the call reads is
 not the one the cached token was minted for. First the calls one after another, then calls that
 interleave around the lock while the device reboots.
 */
module TokenCache {
  import opened Collections

  /** A minted token: the device it is for and the boot it is bound to. */
  datatype Token = Token(audience: string, boot: string, serial: nat)

  type Cache = Option<(string, Token)>

  /** What one call finds: the boot id and ecu id reads, each of which may fail, and whether minting works. */
  datatype Call = Call(boot: Option<string>, ecu: Option<string>, mintOk: bool)

  // --- calls one after another -----------------------------------------------

  predicate CachedFor(cache: Cache, boot: string)
  {
    cache.Some? && cache.value.0 == boot
  }

  /** The cache, the number of tokens minted and the answer after one call. */
  function Answer(cache: Cache, mints: nat, c: Call): (Cache, nat, Option<Token>)
  {
    if c.boot.None? then (cache, mints, None)
    else if CachedFor(cache, c.boot.value) then (cache, mints, Some(cache.value.1))
    else if c.ecu.None? || !c.mintOk then (cache, mints, None)
    else
      var token := Token(c.ecu.value, c.boot.value, mints);
      (Some((c.boot.value, token)), mints + 1, Some(token))
  }

  class RigToken {
    var cached: Cache
    var mints: nat

    constructor ()
      ensures cached == None && mints == 0
    {
      cached, mints := None, 0;
    }

    method GetToken(c: Call) returns (r: Option<Token>)
      modifies this
      ensures (cached, mints, r) == Answer(old(cached), old(mints), c)
    {
      if c.boot.None? {
        return None;
      }
      var boot := c.boot.value;
      if cached.Some? {
        var (cachedBoot, token) := cached.value;
        if cachedBoot == boot {
          return Some(token);
        }
      }
      if c.ecu.None? || !c.mintOk {
        return None;
      }
      var token := Token(c.ecu.value, boot, mints);
      mints := mints + 1;
      cached := Some((boot, token));
      return Some(token);
    }
  }

  /** Cache and mint count after a run of calls from an empty cache. */
  function AfterCalls(calls: seq<Call>): (Cache, nat)
  {
    if calls == [] then (None, 0)
    else
      var (cache, mints) := AfterCalls(calls[..|calls| - 1]);
      var (laterCache, laterMints, _) := Answer(cache, mints, calls[|calls| - 1]);
      (laterCache, laterMints)
  }

  function ReplyTo(calls: seq<Call>): Option<Token>
    requires calls != []
  {
    var (cache, mints) := AfterCalls(calls[..|calls| - 1]);
    Answer(cache, mints, calls[|calls| - 1]).2
  }

  /** The boot id of the last call of the run that got a token. */
  function LastServed(calls: seq<Call>): Option<string>
  {
    if calls == [] then None
    else if ReplyTo(calls).Some? then calls[|calls| - 1].boot
    else LastServed(calls[..|calls| - 1])
  }

  /**
   The cache pairs a token with its own boot, which is that of the last call that was served;
   failed calls change nothing.
   */
  lemma {:induction false} CacheIsLastServed(calls: seq<Call>)
    ensures var cache := AfterCalls(calls).0;
            && (cache.Some? ==> cache.value.1.boot == cache.value.0)
            && LastServed(calls) == (if cache.Some? then Some(cache.value.0) else None)
  {
    if calls != [] {
      CacheIsLastServed(calls[..|calls| - 1]);
    }
  }

  /** A token returned is bound to the boot id this very call read. */
  lemma {:induction false} ReplyIsBound(calls: seq<Call>)
    requires calls != [] && ReplyTo(calls).Some?
    ensures calls[|calls| - 1].boot == Some(ReplyTo(calls).value.boot)
  {
    CacheIsLastServed(calls[..|calls| - 1]);
  }

  /** A call fails exactly when it cannot read the boot id, or has to mint and cannot. */
  lemma {:induction false} ReplyFails(calls: seq<Call>)
    requires calls != []
    ensures var c := calls[|calls| - 1];
            ReplyTo(calls).None? <==> c.boot.None? || (LastServed(calls[..|calls| - 1]) != c.boot && (c.ecu.None? || !c.mintOk))
  {
    CacheIsLastServed(calls[..|calls| - 1]);
  }

  /** The `k`th call minted this token, for the device and the boot it read. */
  ghost predicate MintedAt(calls: seq<Call>, k: nat, token: Token)
    requires k < |calls|
  {
    && calls[k].mintOk && calls[k].ecu == Some(token.audience) && calls[k].boot == Some(token.boot)
    && token.serial == AfterCalls(calls[..k]).1
    && ReplyTo(calls[..k + 1]) == Some(token)
  }

  lemma {:induction false} CacheOrigin(calls: seq<Call>) returns (k: nat)
    requires AfterCalls(calls).0.Some?
    ensures k < |calls| && MintedAt(calls, k, AfterCalls(calls).0.value.1)
  {
    var n := |calls| - 1;
    var init := calls[..n];
    assert calls[..n + 1] == calls;
    if AfterCalls(calls) == AfterCalls(init) {
      k := CacheOrigin(init);
      assert init[..k] == calls[..k] && init[..k + 1] == calls[..k + 1];
    } else {
      k := n;
    }
  }

  /** Every token returned was minted by some call of the run, with that call's own ecu id as audience and the boot id it read. */
  lemma {:induction false} ReplyOrigin(calls: seq<Call>) returns (k: nat)
    requires calls != [] && ReplyTo(calls).Some?
    ensures k < |calls| && MintedAt(calls, k, ReplyTo(calls).value)
  {
    assert AfterCalls(calls).0.Some? && AfterCalls(calls).0.value.1 == ReplyTo(calls).value;
    k := CacheOrigin(calls);
  }

  predicate AllSucceed(calls: seq<Call>)
  {
    forall i :: 0 <= i < |calls| ==> calls[i].boot.Some? && calls[i].ecu.Some? && calls[i].mintOk
  }

  function BootChanges(calls: seq<Call>): nat
  {
    if |calls| <= 1 then 0
    else BootChanges(calls[..|calls| - 1]) + if calls[|calls| - 2].boot == calls[|calls| - 1].boot then 0 else 1
  }

  /** With every read and mint succeeding: one mint, plus one per change of boot id. */
  lemma {:induction false} MintsCounted(calls: seq<Call>)
    requires AllSucceed(calls)
    ensures AfterCalls(calls).1 == if calls == [] then 0 else 1 + BootChanges(calls)
  {
    if calls != [] {
      var init := calls[..|calls| - 1];
      MintsCounted(init);
      CacheIsLastServed(init);
      if init != [] {
        ReplyFails(init);
        assert LastServed(init) == calls[|calls| - 2].boot;
      } else {
        assert AfterCalls(init) == (None, 0);
      }
    }
  }

  // --- calls around the lock -------------------------------------------------

  /** A call's progress; `read` counts the boots the device had been through when it read the boot id. */
  datatype Phase =
    | Fresh
    | Read(read: nat)
    | Holding(read: nat)             // has the lock, looks at the cache
    | Minting(read: nat)             // has the lock, waits for the minter
    | Done(read: nat, token: Token)
    | Failed

  /** Every boot id the device has had, the last one live. */
  datatype State = State(boots: seq<string>, cache: Cache, mints: nat, holder: Option<nat>, calls: seq<Phase>)

  const START: string -> State := (boot: string) => State([boot], None, 0, None, [])

  function Moved(s: State, i: nat, phase: Phase): State
    requires i < |s.calls|
  {
    s.(calls := s.calls[i := phase])
  }

  ghost predicate Acts(s: State, t: State, i: nat)
    requires i < |s.calls| && s.boots != []
  {
    match s.calls[i]
    case Fresh => t == Moved(s, i, Read(|s.boots| - 1))
    case Read(k) => s.holder == None && t == Moved(s, i, Holding(k)).(holder := Some(i))
    case Holding(k) =>
      k < |s.boots|
      && (if CachedFor(s.cache, s.boots[k]) then t == Moved(s, i, Done(k, s.cache.value.1)).(holder := None)
          else t == Moved(s, i, Minting(k)))
    case Minting(k) =>
      k < |s.boots|
      && exists ecu: string ::
           var token := Token(ecu, s.boots[k], s.mints);
           t == Moved(s, i, Done(k, token)).(holder := None, cache := Some((s.boots[k], token)), mints := s.mints + 1)
    case Done(_, _) => false
    case Failed => false
  }

  /** A read, a mint or the whole call gives up; a lock it held is released. */
  ghost predicate Fails(s: State, t: State, i: nat)
    requires i < |s.calls|
  {
    && !s.calls[i].Done? && !s.calls[i].Failed?
    && t == Moved(s, i, Failed).(holder := if s.holder == Some(i) then None else s.holder)
  }

  ghost predicate Next(s: State, t: State)
  {
    || t == s.(calls := s.calls + [Fresh])
    || (exists boot: string :: t == s.(boots := s.boots + [boot]))
    || (s.boots != [] && exists i: nat :: i < |s.calls| && (Acts(s, t, i) || Fails(s, t, i)))
  }

  predicate HasLock(p: Phase)
  {
    p.Holding? || p.Minting?
  }

  /** What holds of one call. A miss stays a miss while the lock is held. */
  ghost predicate CallOk(s: State, i: nat, p: Phase)
  {
    match p
    case Read(k) => k < |s.boots|
    case Holding(k) => k < |s.boots|
    case Minting(k) => k < |s.boots| && !CachedFor(s.cache, s.boots[k])
    case Done(k, token) => k < |s.boots| && token.boot == s.boots[k] && token.serial < s.mints
    case _ => true
  }

  ghost predicate Inv(s: State)
  {
    && s.boots != []
    && (s.cache.Some? ==> s.cache.value.1.boot == s.cache.value.0 && s.cache.value.1.serial < s.mints)
    && (forall i :: 0 <= i < |s.calls| ==> CallOk(s, i, s.calls[i]))
    && (forall i :: 0 <= i < |s.calls| ==> (HasLock(s.calls[i]) <==> s.holder == Some(i)))
    && (s.holder.Some? ==> s.holder.value < |s.calls|)
  }

  /** Only the lock holder changes the cache, so no other call's standing changes. */
  lemma {:induction false} OneMoves(s: State, t: State, i: nat)
    requires Inv(s) && i < |s.calls| && |t.calls| == |s.calls| && t.boots == s.boots && s.mints <= t.mints
    requires forall j :: 0 <= j < |s.calls| && j != i ==> t.calls[j] == s.calls[j]
    requires t.cache == s.cache || s.holder == Some(i)
    requires t.holder == (if HasLock(t.calls[i]) then Some(i) else if s.holder == Some(i) then None else s.holder)
    requires HasLock(t.calls[i]) ==> s.holder == Some(i) || s.holder == None
    requires CallOk(t, i, t.calls[i])
    requires t.cache.Some? ==> t.cache.value.1.boot == t.cache.value.0 && t.cache.value.1.serial < t.mints
    ensures Inv(t)
  {
    forall j | 0 <= j < |t.calls| ensures CallOk(t, j, t.calls[j]) && (HasLock(t.calls[j]) <==> t.holder == Some(j)) {
      assert CallOk(s, j, s.calls[j]);
      assert HasLock(s.calls[j]) <==> s.holder == Some(j);
    }
  }

  lemma {:induction false} ActsKeeps(s: State, t: State, i: nat)
    requires Inv(s) && i < |s.calls| && Acts(s, t, i)
    ensures Inv(t)
  {
    assert CallOk(s, i, s.calls[i]);
    assert HasLock(s.calls[i]) <==> s.holder == Some(i);
    OneMoves(s, t, i);
  }

  lemma {:induction false} NextKeeps(s: State, t: State)
    requires Inv(s) && Next(s, t)
    ensures Inv(t)
  {
    if i: nat :| i < |s.calls| && (Acts(s, t, i) || Fails(s, t, i)) {
      assert HasLock(s.calls[i]) <==> s.holder == Some(i);
      if Acts(s, t, i) {
        ActsKeeps(s, t, i);
      } else {
        OneMoves(s, t, i);
      }
    } else {
      forall j | 0 <= j < |t.calls| ensures CallOk(t, j, t.calls[j]) && (HasLock(t.calls[j]) <==> t.holder == Some(j)) {
        assert j < |s.calls| ==> CallOk(s, j, s.calls[j]);
      }
    }
  }

  ghost predicate Linked(run: seq<State>, k: nat)
    requires k + 1 < |run|
  {
    Next(run[k], run[k + 1])
  }

  ghost predicate IsPath(run: seq<State>)
  {
    run != [] && forall k: nat :: k + 1 < |run| ==> Linked(run, k)
  }

  ghost predicate ValidRun(run: seq<State>, boot: string)
  {
    IsPath(run) && run[0] == START(boot)
  }

  lemma {:induction false} RunInv(run: seq<State>, boot: string, k: nat)
    requires ValidRun(run, boot) && k < |run|
    ensures Inv(run[k])
  {
    if k > 0 {
      RunInv(run, boot, k - 1);
      assert Linked(run, k - 1);
      NextKeeps(run[k - 1], run[k]);
    }
  }

  /**
   However calls interleave and however often the device reboots meanwhile: a returned token is
   bound to the boot id that call read, the cache pairs its token with that token's boot, and at
   most one call is between locking and unlocking.
   */
  lemma {:induction false} TokensMatchTheirRead(run: seq<State>, boot: string, k: nat, i: nat)
    requires ValidRun(run, boot) && k < |run| && i < |run[k].calls|
    ensures var s := run[k];
            && (s.calls[i].Done? ==> s.calls[i].read < |s.boots| && s.calls[i].token.boot == s.boots[s.calls[i].read])
            && (s.cache.Some? ==> s.cache.value.1.boot == s.cache.value.0)
            && (forall j :: 0 <= j < |s.calls| && HasLock(s.calls[i]) && HasLock(s.calls[j]) ==> i == j)
  {
    RunInv(run, boot, k);
    assert CallOk(run[k], i, run[k].calls[i]);
  }

  // --- the two views together ------------------------------------------------

  ghost predicate Reaches(s: State, t: State)
  {
    exists run :: Connects(run, s, t)
  }

  ghost predicate Connects(run: seq<State>, s: State, t: State)
  {
    IsPath(run) && run[0] == s && run[|run| - 1] == t
  }

  lemma {:induction false} ReachesSelf(s: State)
    ensures Reaches(s, s)
  {
    assert Connects([s], s, s);
  }

  lemma {:induction false} ReachesThen(s: State, t: State, r: State)
    requires Reaches(s, t) && Inv(t) && Next(t, r)
    ensures Reaches(s, r) && Inv(r)
  {
    var run :| Connects(run, s, t);
    var longer := run + [r];
    forall k: nat | k + 1 < |longer| ensures Linked(longer, k) {
      if k + 1 < |run| {
        assert Linked(run, k);
      }
    }
    assert Connects(longer, s, r);
    NextKeeps(t, r);
  }

  lemma {:induction false} Advance(s: State, t: State, r: State, i: nat)
    requires Reaches(s, t) && Inv(t) && i < |t.calls| && (Acts(t, r, i) || Fails(t, r, i))
    ensures Reaches(s, r) && Inv(r)
  {
    ReachesThen(s, t, r);
  }

  /** From reading the boot id to the end with nobody in between, minting included. */
  lemma {:induction false} ServeAlone(start: State, s: State, i: nat, ecu: string) returns (t: State)
    requires Reaches(start, s) && Inv(s) && i < |s.calls| && s.calls[i].Read? && s.holder == None && s.calls[i].read < |s.boots|
    ensures Reaches(start, t) && Inv(t)
    ensures var (cache, mints, r) := Answer(s.cache, s.mints, Call(Some(s.boots[s.calls[i].read]), Some(ecu), true));
            r.Some? && t == Moved(s, i, Done(s.calls[i].read, r.value)).(cache := cache, mints := mints)
  {
    var k := s.calls[i].read;
    var held := Moved(s, i, Holding(k)).(holder := Some(i));
    Advance(start, s, held, i);
    if CachedFor(s.cache, s.boots[k]) {
      t := Moved(held, i, Done(k, s.cache.value.1)).(holder := None);
      Advance(start, held, t, i);
    } else {
      var minting := Moved(held, i, Minting(k));
      Advance(start, held, minting, i);
      var token := Token(ecu, s.boots[k], s.mints);
      t := Moved(minting, i, Done(k, token)).(holder := None, cache := Some((s.boots[k], token)), mints := s.mints + 1);
      Advance(start, minting, t, i);
    }
  }

  lemma {:induction false} ReadAlone(start: State, s: State) returns (t: State)
    requires Reaches(start, s) && Inv(s)
    ensures Reaches(start, t) && Inv(t) && t == s.(calls := s.calls + [Read(|s.boots| - 1)])
  {
    var mid := s.(calls := s.calls + [Fresh]);
    ReachesThen(start, s, mid);
    t := Moved(mid, |s.calls|, Read(|s.boots| - 1));
    Advance(start, mid, t, |s.calls|);
  }

  /** A call that nothing interleaves with does what the sequential cache does. */
  lemma {:induction false} AloneIsSequential(start: State, s: State, ecu: string) returns (t: State)
    requires Reaches(start, s) && Inv(s) && s.holder == None
    ensures Reaches(start, t) && Inv(t)
    ensures var live := |s.boots| - 1;
            var (cache, mints, r) := Answer(s.cache, s.mints, Call(Some(s.boots[live]), Some(ecu), true));
            r.Some? && t == s.(cache := cache, mints := mints, calls := s.calls + [Done(live, r.value)])
  {
    var mid := ReadAlone(start, s);
    t := ServeAlone(start, mid, |s.calls|, ecu);
  }

  /**
   Interleaving can cost extra mints: a call that read the old boot id before a reboot but locks
   after another has minted for the new one replaces the cached token, and the next call mints
   again. Three mints, one reboot.
   */
  lemma {:induction false} StaleReaderMintsAgain(before: string, after: string, ecu: string) returns (t: State)
    requires before != after
    ensures Reaches(START(before), t) && t.boots == [before, after] && t.mints == 3 && |t.calls| == 3
    ensures forall i :: 0 <= i < 3 ==> t.calls[i].Done?
  {
    var s0 := START(before);
    ReachesSelf(s0);
    var s1 := ReadAlone(s0, s0);
    var s2 := s1.(boots := s1.boots + [after]);
    ReachesThen(s0, s1, s2);
    assert s2.boots == [before, after] && s2.calls == [Read(0)];
    t := StaleFinish(s0, s2, before, after, ecu);
  }

  lemma {:induction false} StaleFinish(start: State, s: State, before: string, after: string, ecu: string) returns (t: State)
    requires Reaches(start, s) && Inv(s) && before != after
    requires s.boots == [before, after] && s.cache == None && s.mints == 0 && s.holder == None && s.calls == [Read(0)]
    ensures Reaches(start, t) && t.boots == [before, after] && t.mints == 3 && |t.calls| == 3
    ensures forall i :: 0 <= i < 3 ==> t.calls[i].Done?
  {
    var served := AloneIsSequential(start, s, ecu);
    var stale := ServeAlone(start, served, 0, ecu);
    t := AloneIsSequential(start, stale, ecu);
  }
}
