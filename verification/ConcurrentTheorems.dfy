/** What holds in every run of concurrent publishers, and what a race can and cannot do. */
module ConcurrentTheorems {
  import opened Collections
  import opened ContentHashes
  import opened Suit
  import opened BlobStore
  import opened Publish
  import opened PublishTheorems
  import opened ConcurrentPublish

  ghost predicate Linked<S>(env: Env<S>, run: seq<State>, k: nat)
    requires k + 1 < |run|
  {
    Next(env, run[k], run[k + 1])
  }

  ghost predicate ValidRun<S>(env: Env<S>, run: seq<State>)
  {
    run != [] && forall k: nat :: k + 1 < |run| ==> Linked(env, run, k)
  }

  // --- every state -----------------------------------------------------------

  /** What is kept from one state to a later one. */
  ghost predicate Later(s: State, t: State)
  {
    && (forall inner :: inner in s.index ==> inner in t.index && t.index[inner] == s.index[inner])
    && (forall h :: BlobName(h) in s.files ==> BlobName(h) in t.files)
    && |s.procs| <= |t.procs|
    && (forall i :: 0 <= i < |s.procs| ==> t.procs[i].upload == s.procs[i].upload
                                           && (s.procs[i].phase.Returned? ==> t.procs[i] == s.procs[i]))
  }

  lemma {:induction false} NextKeeps<S>(env: Env<S>, past: seq<Upload>, s: State, t: State)
    requires Inv(env, past, s) && Next(env, s, t)
    ensures Inv(env, past, t) && Later(s, t)
  {
    if u :| Starts(s, t, u) {
      StartKeeps(env, past, s, t, u);
    } else {
      var i: nat :| i < |s.procs| && Intact(s.procs[i].upload.body) && Steps(env, s, t, i);
      StepKeepsAll(env, past, s, t, i);
      StepMovesOne(env, s, t, i);
      LaterIfMoved(env, s, t, i);
    }
  }

  lemma {:induction false} LaterIfMoved<S>(env: Env<S>, s: State, t: State, i: nat)
    requires i < |s.procs| && !s.procs[i].phase.Returned? && MovedOnly(s, t, i) && Frame(env, s, t, i)
    ensures Later(s, t)
  {
  }

  /** Only publisher `i` moved, and it did move. */
  ghost predicate MovedOnly(s: State, t: State, i: nat)
    requires i < |s.procs|
  {
    && |t.procs| == |s.procs|
    && (forall j :: 0 <= j < |s.procs| && j != i ==> t.procs[j] == s.procs[j])
    && t.procs[i].upload == s.procs[i].upload && t.procs[i].phase != s.procs[i].phase
  }

  lemma {:induction false} MovedMoves(s: State, t: State, i: nat, phase: Phase)
    requires i < |s.procs| && s.procs[i].phase != phase && t.procs == Moved(s, i, phase).procs
    ensures MovedOnly(s, t, i)
  {
  }

  lemma {:induction false} ActMovesOne<S>(env: Env<S>, s: State, t: State, i: nat)
    requires i < |s.procs| && Intact(s.procs[i].upload.body) && Acts(env, s, t, i)
    ensures MovedOnly(s, t, i)
  {
    var u := s.procs[i].upload;
    match s.procs[i].phase
    case Numbered => MovedMoves(s, t, i, Writing(0));
    case Writing(done) =>
      if t != Moved(s, i, Written) {
        var upto: nat :| done < upto <= |Blob(env, u)|
          && t == Moved(s, i, Writing(upto)).(files := s.files[Temp(env, i) := s.files[Temp(env, i)] + Blob(env, u)[done..upto]]);
        MovedMoves(s, t, i, Writing(upto));
      }
    case Hit(ref) => MovedMoves(s, t, i, Returned(ref));
    case DestSeen => MovedMoves(s, t, i, Placing);
    case DestUnseen => MovedMoves(s, t, i, Placing);
    case Placing => MovedMoves(s, t, i, Indexed);
    case Indexed => MovedMoves(s, t, i, Returned(RefOf(EntryOf(env, u))));
    case _ =>
  }

  lemma {:induction false} StepMovesOne<S>(env: Env<S>, s: State, t: State, i: nat)
    requires i < |s.procs| && Intact(s.procs[i].upload.body) && Steps(env, s, t, i)
    ensures !s.procs[i].phase.Returned? && MovedOnly(s, t, i)
  {
    if Acts(env, s, t, i) {
      ActMovesOne(env, s, t, i);
    }
  }

  lemma {:induction false} RunInv<S>(env: Env<S>, past: seq<Upload>, run: seq<State>, k: nat)
    requires ValidRun(env, run) && Init(env, past, run[0]) && k < |run|
    ensures Inv(env, past, run[k])
  {
    if k == 0 {
      assert Sources(past, run[0].procs) == past;
    } else {
      RunInv(env, past, run, k - 1);
      assert Linked(env, run, k - 1);
      NextKeeps(env, past, run[k - 1], run[k]);
    }
  }

  lemma {:induction false} StepLater<S>(env: Env<S>, past: seq<Upload>, run: seq<State>, k: nat)
    requires ValidRun(env, run) && Init(env, past, run[0]) && k + 1 < |run|
    ensures Later(run[k], run[k + 1])
  {
    RunInv(env, past, run, k);
    assert Linked(env, run, k);
    NextKeeps(env, past, run[k], run[k + 1]);
  }

  /** Entries never change, blobs never disappear, answers stay given. */
  lemma {:induction false} RunLater<S>(env: Env<S>, past: seq<Upload>, run: seq<State>, j: nat, k: nat)
    requires ValidRun(env, run) && Init(env, past, run[0]) && j <= k < |run|
    ensures Later(run[j], run[k])
    decreases k
  {
    if j < k {
      RunLater(env, past, run, j, k - 1);
      StepLater(env, past, run, k - 1);
      LaterTransitive(run[j], run[k - 1], run[k]);
    }
  }

  lemma {:induction false} LaterTransitive(s: State, t: State, r: State)
    requires Later(s, t) && Later(t, r)
    ensures Later(s, r)
  {
  }

  /** The blob is there and its bytes have its name's hash. */
  ghost predicate Stored<S>(env: Env<S>, files: Files, outer: ContentHash)
  {
    BlobName(outer) in files && env.sha(files[BlobName(outer)]) == outer
  }

  lemma {:induction false} StoredUnderOwnHash<S>(env: Env<S>, uploads: seq<Upload>, files: Files, outer: ContentHash)
    requires BlobsFrom(env, uploads, files) && BlobName(outer) in files
    ensures Stored(env, files, outer)
  {
    assert FileFrom(env, uploads, BlobName(outer), files[BlobName(outer)]);
    HexInjective(outer, env.sha(files[BlobName(outer)]));
  }

  /** In every state of every interleaving, each entry is filed under its plaintext's hash and its blob is stored under its own. */
  lemma {:induction false} EntriesPointToBlobs<S>(env: Env<S>, past: seq<Upload>, run: seq<State>, k: nat, inner: ContentHash)
    requires ValidRun(env, run) && Init(env, past, run[0]) && k < |run| && inner in run[k].index
    ensures run[k].index[inner].inner == inner && Stored(env, run[k].files, run[k].index[inner].outer)
  {
    RunInv(env, past, run, k);
    IndexedIsGood(env, past, run[k], inner);
    StoredUnderOwnHash(env, Sources(past, run[k].procs), run[k].files, run[k].index[inner].outer);
  }

  /** A reference, once returned, names an indexed plaintext and a stored blob ever after. */
  lemma {:induction false} ReturnedRefsHold<S>(env: Env<S>, past: seq<Upload>, run: seq<State>, j: nat, k: nat, i: nat)
    requires ValidRun(env, run) && Init(env, past, run[0]) && j <= k < |run|
    requires i < |run[j].procs| && run[j].procs[i].phase.Returned?
    ensures var p := run[j].procs[i];
            && Intact(p.upload.body)
            && p.phase.ref.inner == env.sha(Plain(p.upload.body))
            && p.phase.ref.inner in run[k].index
            && Stored(env, run[k].files, p.phase.ref.outer)
  {
    RunInv(env, past, run, j);
    RunInv(env, past, run, k);
    RunLater(env, past, run, j, k);
    var p := run[j].procs[i];
    assert ProcOk(env, run[j].index, run[j].files, i, p);
    StoredUnderOwnHash(env, Sources(past, run[k].procs), run[k].files, p.phase.ref.outer);
  }

  /**
   If the hash does not collide on what was uploaded, then whatever raced, a returned upload can be
   looked up, fetched and opened to its own bytes from then on, and the answer gave their size.
   */
  lemma {:induction false} ReturnedIsFetchable<S(!new)>(env: Env<S>, past: seq<Upload>, run: seq<State>, j: nat, k: nat, i: nat)
    requires ValidRun(env, run) && Init(env, past, run[0]) && j <= k < |run|
    requires i < |run[j].procs| && run[j].procs[i].phase.Returned?
    requires Lossless(env.codec) && Separated(env, Sources(past, run[k].procs))
    ensures Intact(run[j].procs[i].upload.body) && Fetchable(env, run[k].index, run[k].files, Plain(run[j].procs[i].upload.body))
    ensures run[j].procs[i].phase.ref.size == |Plain(run[j].procs[i].upload.body)|
  {
    ReturnedRefsHold(env, past, run, j, k, i);
    RunInv(env, past, run, k);
    RunLater(env, past, run, j, k);
    var u := run[k].procs[i].upload;
    assert u in Sources(past, run[k].procs);
    ReturnedRefExact(env, past, run, k, i);
    EntryOpens(env, Sources(past, run[k].procs), run[k].index, run[k].files, u);
  }

  // --- temps are private -----------------------------------------------------

  /** While a publisher does not move itself, nobody creates, changes or removes its temp. */
  lemma {:induction false} TempsArePrivate<S>(env: Env<S>, past: seq<Upload>, run: seq<State>, k: nat, i: nat)
    requires ValidRun(env, run) && Init(env, past, run[0]) && k + 1 < |run|
    requires i < |run[k].procs| && i < |run[k + 1].procs| && run[k + 1].procs[i] == run[k].procs[i]
    ensures SameTemp(env, run[k].files, run[k + 1].files, i)
  {
    RunInv(env, past, run, k);
    assert Linked(env, run, k);
    OtherStep(env, past, run[k], run[k + 1], i);
  }

  lemma {:induction false} OtherStep<S>(env: Env<S>, past: seq<Upload>, s: State, t: State, i: nat)
    requires Inv(env, past, s) && Next(env, s, t) && i < |s.procs| && i < |t.procs| && t.procs[i] == s.procs[i]
    ensures SameTemp(env, s.files, t.files, i)
  {
    if u :| Starts(s, t, u) {
      StartKeeps(env, past, s, t, u);
    } else {
      var a: nat :| a < |s.procs| && Intact(s.procs[a].upload.body) && Steps(env, s, t, a);
      StepKeepsAll(env, past, s, t, a);
      StepMovesOne(env, s, t, a);
    }
  }

  // --- the race --------------------------------------------------------------

  /**
   A publisher that reaches the put answers with its own reference. That is the index's reference
   exactly when nobody else got there first, or the blobs have the same hash.
   */
  lemma {:induction false} PutDecides<S>(env: Env<S>, past: seq<Upload>, s: State, t: State, i: nat)
    requires i < |s.procs| && Inv(env, past, s) && Intact(s.procs[i].upload.body)
    requires s.procs[i].phase.Placing? && Acts(env, s, t, i) && Separated(env, Sources(past, s.procs))
    ensures var u := s.procs[i].upload;
            && Inner(env, u) in t.index
            && (RefOf(t.index[Inner(env, u)]) == RefOf(EntryOf(env, u))
                <==> Inner(env, u) !in s.index || s.index[Inner(env, u)].outer == Outer(env, u))
  {
    var u := s.procs[i].upload;
    var sources := Sources(past, s.procs);
    if Inner(env, u) in s.index {
      assert u in sources;
      var v := EntrySource(env, sources, s.index, s.files, u);
    }
  }

  /**
   Over any run: an answer that is not the index's reference is the publisher's own, and differs in
   the outer hash alone.
   */
  lemma {:induction false} ReturnedRefExact<S>(env: Env<S>, past: seq<Upload>, run: seq<State>, k: nat, i: nat)
    requires ValidRun(env, run) && Init(env, past, run[0]) && k < |run| && i < |run[k].procs|
    requires run[k].procs[i].phase.Returned? && Separated(env, Sources(past, run[k].procs))
    ensures var u, ref := run[k].procs[i].upload, run[k].procs[i].phase.ref;
            && Intact(u.body) && ref.inner in run[k].index
            && (ref != RefOf(run[k].index[ref.inner])
                <==> ref == RefOf(EntryOf(env, u)) && run[k].index[ref.inner].outer != Outer(env, u))
  {
    RunInv(env, past, run, k);
    var s := run[k];
    var u := s.procs[i].upload;
    assert ProcOk(env, s.index, s.files, i, s.procs[i]);
    assert u in Sources(past, s.procs);
    var v := EntrySource(env, Sources(past, s.procs), s.index, s.files, u);
  }

  ghost predicate Reaches<S>(env: Env<S>, s: State, t: State)
  {
    exists run :: Connects(env, run, s, t)
  }

  ghost predicate Connects<S>(env: Env<S>, run: seq<State>, s: State, t: State)
  {
    ValidRun(env, run) && run[0] == s && run[|run| - 1] == t
  }

  lemma {:induction false} ReachesSelf<S>(env: Env<S>, s: State)
    ensures Reaches(env, s, s)
  {
    assert Connects(env, [s], s, s);
  }

  lemma {:induction false} ReachesThen<S>(env: Env<S>, s: State, t: State, r: State)
    requires Reaches(env, s, t) && Next(env, t, r)
    ensures Reaches(env, s, r)
  {
    var run :| Connects(env, run, s, t);
    var longer := run + [r];
    forall k: nat | k + 1 < |longer| ensures Linked(env, longer, k) {
      if k + 1 < |run| {
        assert Linked(env, run, k);
      }
    }
    assert Connects(env, longer, s, r);
  }

  lemma {:induction false} ReachesInv<S>(env: Env<S>, past: seq<Upload>, s: State, t: State)
    requires Init(env, past, s) && Reaches(env, s, t)
    ensures Inv(env, past, t)
  {
    var run :| Connects(env, run, s, t);
    RunInv(env, past, run, |run| - 1);
  }

  /** Publisher `i` takes a step, extending a run. */
  lemma {:induction false} Advance<S>(env: Env<S>, s: State, t: State, r: State, i: nat)
    requires Reaches(env, s, t) && i < |t.procs| && Intact(t.procs[i].upload.body) && Acts(env, t, r, i)
    ensures Reaches(env, s, r)
  {
    assert Steps(env, t, r, i);
    assert Next(env, t, r);
    ReachesThen(env, s, t, r);
  }

  /** A new publisher can always get as far as missing the index. */
  lemma {:induction false} BeginAlone<S>(env: Env<S>, start: State, s: State, u: Upload) returns (t: State)
    requires Reaches(env, start, s) && Intact(u.body) && Inner(env, u) !in s.index
    ensures Reaches(env, start, t)
    ensures t.index == s.index && t.procs == s.procs + [Proc(u, Missed)]
  {
    var i := |s.procs|;
    var s1 := s.(procs := s.procs + [Proc(u, Numbered)]);
    assert Starts(s, s1, u);
    ReachesThen(env, start, s, s1);
    var s2 := WriteAlone(env, start, s1, i);
    t := Moved(s2, i, Missed);
    Advance(env, start, s2, t, i);
  }

  lemma {:induction false} WriteAlone<S>(env: Env<S>, start: State, s: State, i: nat) returns (t: State)
    requires Reaches(env, start, s)
    requires i < |s.procs| && Intact(s.procs[i].upload.body) && s.procs[i].phase == Numbered
    ensures Reaches(env, start, t)
    ensures t.index == s.index && t.procs == Moved(s, i, Written).procs
  {
    var blob, tmp := Blob(env, s.procs[i].upload), Temp(env, i);
    assert |blob| >= TAG_LEN;
    var s1 := Moved(s, i, Writing(0)).(files := s.files[tmp := []]);
    Advance(env, start, s, s1, i);
    var s2 := Moved(s1, i, Writing(|blob|)).(files := s1.files[tmp := s1.files[tmp] + blob[0..|blob|]]);
    Advance(env, start, s1, s2, i);
    t := Moved(s2, i, Written);
    Advance(env, start, s2, t, i);
  }

  /** A publisher that missed the index can always finish, and answers with its own reference. */
  lemma {:induction false} FinishAlone<S>(env: Env<S>, start: State, s: State, i: nat) returns (t: State)
    requires Reaches(env, start, s)
    requires i < |s.procs| && Intact(s.procs[i].upload.body) && s.procs[i].phase == Missed && Temp(env, i) in s.files
    ensures Reaches(env, start, t)
    ensures t.index == Offered(s.index, EntryOf(env, s.procs[i].upload))
    ensures t.procs == Moved(s, i, Returned(RefOf(EntryOf(env, s.procs[i].upload)))).procs
  {
    var mid := PlaceAlone(env, start, s, i);
    t := OfferAlone(env, start, mid, i);
  }

  lemma {:induction false} PlaceAlone<S>(env: Env<S>, start: State, s: State, i: nat) returns (t: State)
    requires Reaches(env, start, s)
    requires i < |s.procs| && Intact(s.procs[i].upload.body) && s.procs[i].phase == Missed && Temp(env, i) in s.files
    ensures Reaches(env, start, t)
    ensures t.index == s.index && t.procs == Moved(s, i, Placing).procs
  {
    var u, tmp := s.procs[i].upload, Temp(env, i);
    var s1 := Moved(s, i, DestUnseen);
    Advance(env, start, s, s1, i);
    t := Moved(s1, i, Placing).(files := (s1.files - {tmp})[BlobName(Outer(env, u)) := s1.files[tmp]]);
    Advance(env, start, s1, t, i);
  }

  lemma {:induction false} OfferAlone<S>(env: Env<S>, start: State, s: State, i: nat) returns (t: State)
    requires Reaches(env, start, s)
    requires i < |s.procs| && Intact(s.procs[i].upload.body) && s.procs[i].phase == Placing
    ensures Reaches(env, start, t)
    ensures t.index == Offered(s.index, EntryOf(env, s.procs[i].upload))
    ensures t.procs == Moved(s, i, Returned(RefOf(EntryOf(env, s.procs[i].upload)))).procs
  {
    var e := EntryOf(env, s.procs[i].upload);
    var s1 := Moved(s, i, Indexed).(index := Offered(s.index, e));
    Advance(env, start, s, s1, i);
    t := Moved(s1, i, Returned(RefOf(e)));
    Advance(env, start, s1, t, i);
  }

  lemma {:induction false} MissedHoldsTemp<S>(env: Env<S>, past: seq<Upload>, start: State, s: State, i: nat)
    requires Init(env, past, start) && Reaches(env, start, s) && i < |s.procs| && s.procs[i].phase == Missed
    ensures Temp(env, i) in s.files
  {
    ReachesInv(env, past, start, s);
    assert ProcOk(env, s.index, s.files, i, s.procs[i]);
  }

  /** Two publishers, both past the lookup before either is indexed; the first then finishes first. */
  lemma {:induction false} Race<S>(env: Env<S>, past: seq<Upload>, s: State, a: Upload, b: Upload) returns (t: State)
    requires Init(env, past, s) && Intact(a.body) && Intact(b.body)
    requires Inner(env, a) !in s.index && Inner(env, b) !in s.index
    ensures Reaches(env, s, t)
    ensures t.procs == [Proc(a, Returned(RefOf(EntryOf(env, a)))), Proc(b, Returned(RefOf(EntryOf(env, b))))]
    ensures t.index == Offered(Offered(s.index, EntryOf(env, a)), EntryOf(env, b))
  {
    ReachesSelf(env, s);
    var s1 := BeginAlone(env, s, s, a);
    var s2 := BeginAlone(env, s, s1, b);
    assert s2.procs == [Proc(a, Missed), Proc(b, Missed)];
    MissedHoldsTemp(env, past, s, s2, 0);
    var s3 := FinishAlone(env, s, s2, 0);
    MissedHoldsTemp(env, past, s, s3, 1);
    t := FinishAlone(env, s, s3, 1);
  }

  /**
   Two uploads of the same bytes under different keys can race so that the loser's answer names its
   own blob, not the indexed one. Both blobs stay stored.
   */
  lemma {:induction false} RaceLoserKeepsOwnRef<S>(env: Env<S>, past: seq<Upload>, s: State, a: Upload, b: Upload) returns (t: State)
    requires Init(env, past, s) && Intact(a.body) && Intact(b.body) && Plain(a.body) == Plain(b.body)
    requires Inner(env, a) !in s.index && Outer(env, a) != Outer(env, b)
    ensures Reaches(env, s, t) && |t.procs| == 2 && t.procs[1].phase.Returned?
    ensures var ref := t.procs[1].phase.ref;
            && ref.inner in t.index && ref == RefOf(EntryOf(env, b))
            && t.index[ref.inner] == EntryOf(env, a) && ref.outer != t.index[ref.inner].outer
            && Stored(env, t.files, ref.outer) && Stored(env, t.files, t.index[ref.inner].outer)
  {
    t := Race(env, past, s, a, b);
    ReachesInv(env, past, s, t);
    OwnRefStored(env, past, t, 0);
    OwnRefStored(env, past, t, 1);
  }

  lemma {:induction false} OwnRefStored<S>(env: Env<S>, past: seq<Upload>, s: State, i: nat)
    requires Inv(env, past, s) && i < |s.procs| && s.procs[i].phase.Returned?
    ensures Stored(env, s.files, s.procs[i].phase.ref.outer)
  {
    assert ProcOk(env, s.index, s.files, i, s.procs[i]);
    StoredUnderOwnHash(env, Sources(past, s.procs), s.files, s.procs[i].phase.ref.outer);
  }
}
