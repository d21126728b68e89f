/**
 Any number of publishers at once. Each is a sequence of small steps on the shared directory and
 index; steps of different publishers interleave freely, and a publisher may stop anywhere, with
 or without its temp being discarded. Writes to a temp are cut arbitrarily.
 */
module ConcurrentPublish {
  import opened Collections
  import opened ContentHashes
  import opened Suit
  import opened BlobStore
  import opened Publish
  import opened PublishTheorems

  datatype Phase =
    | Numbered                       // took a temp number, no file yet
    | Writing(done: nat)
    | Written                        // tag written, hashes final
    | Hit(existing: ArtifactRef)     // the index knew the plaintext
    | Missed                         // it did not
    | DestSeen | DestUnseen          // answer of the existence test on the blob's name
    | Placing                        // temp renamed or removed
    | Indexed                        // entry offered to the index
    | Returned(ref: ArtifactRef)
    | Stopped

  datatype Proc = Proc(upload: Upload, phase: Phase)

  /** A publisher's number is its position; the next number is the count. */
  datatype State = State(index: Index, files: Files, procs: seq<Proc>)

  function Outer<S>(env: Env<S>, u: Upload): ContentHash
    requires Intact(u.body)
  {
    EntryOf(env, u).outer
  }

  function Inner<S>(env: Env<S>, u: Upload): ContentHash
    requires Intact(u.body)
  {
    EntryOf(env, u).inner
  }

  function Temp<S>(env: Env<S>, i: nat): string
  {
    TempName(env.pid, i)
  }

  // --- steps -----------------------------------------------------------------

  ghost predicate Starts(s: State, t: State, u: Upload)
  {
    Intact(u.body) && t == s.(procs := s.procs + [Proc(u, Numbered)])
  }

  function Moved(s: State, i: nat, phase: Phase): State
    requires i < |s.procs|
  {
    s.(procs := s.procs[i := s.procs[i].(phase := phase)])
  }

  /** The index after a put: the first writer wins. */
  function Offered(index: Index, e: ArtifactEntry): Index
  {
    if e.inner in index then index else index[e.inner := e]
  }

  /** Publisher `i` stops: dropped, which discards its temp unless it was committed, or simply gone. */
  ghost predicate Stops<S>(env: Env<S>, s: State, t: State, i: nat)
    requires i < |s.procs|
  {
    var q := Moved(s, i, Stopped);
    t == q || (!(s.procs[i].phase.Numbered? || s.procs[i].phase.Placing? || s.procs[i].phase.Indexed?) && t == q.(files := s.files - {Temp(env, i)}))
  }

  ghost predicate Acts<S>(env: Env<S>, s: State, t: State, i: nat)
    requires i < |s.procs| && Intact(s.procs[i].upload.body)
  {
    var u := s.procs[i].upload;
    var tmp := Temp(env, i);
    var blob := Blob(env, u);
    match s.procs[i].phase
    case Numbered => t == Moved(s, i, Writing(0)).(files := s.files[tmp := []])
    case Writing(done) =>
      || (done == |blob| && t == Moved(s, i, Written))
      || exists upto: nat :: done < upto <= |blob| && tmp in s.files
                             && t == Moved(s, i, Writing(upto)).(files := s.files[tmp := s.files[tmp] + blob[done..upto]])
    case Written =>
      if Inner(env, u) in s.index then t == Moved(s, i, Hit(RefOf(s.index[Inner(env, u)]))) else t == Moved(s, i, Missed)
    case Hit(existing) =>
      // the temp goes as the sink is dropped on the way out
      t == Moved(s, i, Returned(existing)).(files := s.files - {tmp})
    case Missed =>
      // a failing existence test counts as "not there"
      (BlobName(Outer(env, u)) in s.files && t == Moved(s, i, DestSeen)) || t == Moved(s, i, DestUnseen)
    case DestSeen =>
      // a failing removal is ignored
      t == Moved(s, i, Placing).(files := s.files - {tmp}) || t == Moved(s, i, Placing)
    case DestUnseen =>
      tmp in s.files && t == Moved(s, i, Placing).(files := (s.files - {tmp})[BlobName(Outer(env, u)) := s.files[tmp]])
    case Placing =>
      t == Moved(s, i, Indexed).(index := Offered(s.index, EntryOf(env, u)))
    case Indexed => t == Moved(s, i, Returned(RefOf(EntryOf(env, u))))
    case Returned(_) => false
    case Stopped => false
  }

  ghost predicate Steps<S>(env: Env<S>, s: State, t: State, i: nat)
    requires i < |s.procs| && Intact(s.procs[i].upload.body)
  {
    Acts(env, s, t, i) || (!(s.procs[i].phase.Returned? || s.procs[i].phase.Stopped?) && Stops(env, s, t, i))
  }

  ghost predicate Next<S>(env: Env<S>, s: State, t: State)
  {
    || (exists u :: Starts(s, t, u))
    || (exists i: nat :: i < |s.procs| && Intact(s.procs[i].upload.body) && Steps(env, s, t, i))
  }

  // --- the invariant ---------------------------------------------------------

  function Sources(past: seq<Upload>, procs: seq<Proc>): (r: seq<Upload>)
    ensures forall u :: u in past ==> u in r
    ensures forall i :: 0 <= i < |procs| ==> procs[i].upload in r
  {
    var own := seq(|procs|, i requires 0 <= i < |procs| => procs[i].upload);
    assert forall i :: 0 <= i < |procs| ==> procs[i].upload == own[i] && own[i] in own;
    past + own
  }

  /** The reference names an indexed plaintext and a stored blob. */
  ghost predicate GoodRef(index: Index, files: Files, ref: ArtifactRef)
  {
    ref.inner in index && BlobName(ref.outer) in files
  }

  /** The reference is the index's own. */
  ghost predicate IsIndexed(index: Index, ref: ArtifactRef)
  {
    ref.inner in index && ref == RefOf(index[ref.inner])
  }

  ghost predicate HoldsTemp<S>(env: Env<S>, files: Files, i: nat, bytes: Bytes)
  {
    Temp(env, i) in files && files[Temp(env, i)] == bytes
  }

  ghost predicate ProcOk<S>(env: Env<S>, index: Index, files: Files, i: nat, p: Proc)
  {
    Intact(p.upload.body)
    && var u := p.upload;
       match p.phase
       case Numbered => true
       case Writing(done) => done <= |Blob(env, u)| && HoldsTemp(env, files, i, Blob(env, u)[..done])
       case Written => HoldsTemp(env, files, i, Blob(env, u))
       case Hit(ref) => HoldsTemp(env, files, i, Blob(env, u)) && ref.inner == Inner(env, u) && GoodRef(index, files, ref) && IsIndexed(index, ref)
       case Missed => HoldsTemp(env, files, i, Blob(env, u))
       case DestSeen => HoldsTemp(env, files, i, Blob(env, u)) && BlobName(Outer(env, u)) in files
       case DestUnseen => HoldsTemp(env, files, i, Blob(env, u))
       case Placing => BlobName(Outer(env, u)) in files
       case Indexed => GoodRef(index, files, RefOf(EntryOf(env, u)))
       case Returned(ref) =>
         ref.inner == Inner(env, u) && GoodRef(index, files, ref) && (IsIndexed(index, ref) || ref == RefOf(EntryOf(env, u)))
       case Stopped => true
  }

  ghost predicate ProcsOk<S>(env: Env<S>, s: State)
  {
    forall i :: 0 <= i < |s.procs| ==> ProcOk(env, s.index, s.files, i, s.procs[i])
  }

  ghost predicate StoreOk<S>(env: Env<S>, sources: seq<Upload>, index: Index, files: Files)
  {
    BlobsFrom(env, sources, files) && EntriesFrom(env, sources, index) && Backed(index, files)
  }

  ghost predicate Inv<S>(env: Env<S>, past: seq<Upload>, s: State)
  {
    StoreOk(env, Sources(past, s.procs), s.index, s.files) && ProcsOk(env, s)
  }

  /** No publisher yet, over what earlier uploads left; stray temps of dead processes may lie around. */
  ghost predicate Init<S>(env: Env<S>, past: seq<Upload>, s: State)
  {
    s.procs == [] && StoreOk(env, past, s.index, s.files)
  }

  // --- what a step may do to the shared state --------------------------------

  /** Entries are kept, blobs are kept, temps other than number `i`'s are untouched. */
  ghost predicate Frame<S>(env: Env<S>, s: State, t: State, i: nat)
  {
    && (forall inner :: inner in s.index ==> inner in t.index && t.index[inner] == s.index[inner])
    && (forall h :: BlobName(h) in s.files ==> BlobName(h) in t.files)
    && (forall j: nat :: j != i ==> SameTemp(env, s.files, t.files, j))
  }

  ghost predicate SameTemp<S>(env: Env<S>, before: Files, after: Files, j: nat)
  {
    (Temp(env, j) in before <==> Temp(env, j) in after) && (Temp(env, j) in before ==> after[Temp(env, j)] == before[Temp(env, j)])
  }

  /** Changing only number `i`'s temp disturbs no blob and no other temp. */
  lemma {:induction false} OwnTempOnly<S>(env: Env<S>, s: State, t: State, i: nat)
    requires t.index == s.index && t.files - {Temp(env, i)} == s.files - {Temp(env, i)}
    ensures Frame(env, s, t, i)
    ensures forall h :: BlobName(h) in t.files ==> BlobName(h) in s.files && t.files[BlobName(h)] == s.files[BlobName(h)]
  {
    forall h ensures Temp(env, i) != BlobName(h) { TempIsNoBlob(env.pid, i, h); }
    var before, after := s.files - {Temp(env, i)}, t.files - {Temp(env, i)};
    forall h | BlobName(h) in s.files ensures BlobName(h) in t.files {
      assert BlobName(h) in before;
      assert BlobName(h) in after;
    }
    forall h | BlobName(h) in t.files ensures BlobName(h) in s.files && t.files[BlobName(h)] == s.files[BlobName(h)] {
      assert BlobName(h) in after;
      assert BlobName(h) in before && before[BlobName(h)] == after[BlobName(h)];
    }
    forall j: nat | j != i ensures SameTemp(env, s.files, t.files, j) {
      OtherTemp(env, s.files, t.files, i, j);
    }
  }

  lemma {:induction false} OtherTemp<S>(env: Env<S>, before: Files, after: Files, i: nat, j: nat)
    requires i != j && after - {Temp(env, i)} == before - {Temp(env, i)}
    ensures SameTemp(env, before, after, j)
  {
    if Temp(env, i) == Temp(env, j) {
      TempNamesDiffer(env.pid, i, env.pid, j);
    }
    var name := Temp(env, j);
    var b, a := before - {Temp(env, i)}, after - {Temp(env, i)};
    assert name in before <==> name in b;
    assert name in after <==> name in a;
    assert name in b ==> b[name] == before[name] && a[name] == after[name];
  }

  lemma {:induction false} FrameKeepsProc<S>(env: Env<S>, s: State, t: State, i: nat, j: nat, p: Proc)
    requires Frame(env, s, t, i) && j != i && ProcOk(env, s.index, s.files, j, p)
    ensures ProcOk(env, t.index, t.files, j, p)
  {
    assert SameTemp(env, s.files, t.files, j);
  }

  lemma {:induction false} OthersKeep<S>(env: Env<S>, s: State, t: State, i: nat)
    requires i < |s.procs| && ProcsOk(env, s) && Frame(env, s, t, i)
    requires |t.procs| == |s.procs| && forall j :: 0 <= j < |s.procs| && j != i ==> t.procs[j] == s.procs[j]
    requires ProcOk(env, t.index, t.files, i, t.procs[i])
    ensures ProcsOk(env, t)
  {
    forall j | 0 <= j < |t.procs| ensures ProcOk(env, t.index, t.files, j, t.procs[j]) {
      if j != i {
        FrameKeepsProc(env, s, t, i, j, s.procs[j]);
      }
    }
  }

  lemma {:induction false} SourcesSame(past: seq<Upload>, procs: seq<Proc>, i: nat, phase: Phase)
    requires i < |procs|
    ensures Sources(past, procs[i := procs[i].(phase := phase)]) == Sources(past, procs)
  {
  }

  /** A step that touches nothing shared but the publisher's own temp. */
  lemma {:induction false} TempStepKeeps<S>(env: Env<S>, past: seq<Upload>, s: State, t: State, i: nat, phase: Phase)
    requires i < |s.procs| && Inv(env, past, s)
    requires t.index == s.index && t.files - {Temp(env, i)} == s.files - {Temp(env, i)} && t.procs == Moved(s, i, phase).procs
    requires ProcOk(env, s.index, s.files, i, s.procs[i]) ==> ProcOk(env, t.index, t.files, i, t.procs[i])
    ensures Inv(env, past, t) && Frame(env, s, t, i)
  {
    assert ProcOk(env, s.index, s.files, i, s.procs[i]);
    SourcesSame(past, s.procs, i, phase);
    TempStore(env, Sources(past, s.procs), s, t, i);
    TempProcs(env, s, t, i, phase);
  }

  lemma {:induction false} TempStore<S>(env: Env<S>, sources: seq<Upload>, s: State, t: State, i: nat)
    requires StoreOk(env, sources, s.index, s.files)
    requires t.index == s.index && t.files - {Temp(env, i)} == s.files - {Temp(env, i)}
    ensures StoreOk(env, sources, t.index, t.files)
  {
    OwnTempOnly(env, s, t, i);
    SameStore(env, sources, s, t);
  }

  lemma {:induction false} TempProcs<S>(env: Env<S>, s: State, t: State, i: nat, phase: Phase)
    requires i < |s.procs| && ProcsOk(env, s) && t.procs == Moved(s, i, phase).procs
    requires t.index == s.index && t.files - {Temp(env, i)} == s.files - {Temp(env, i)}
    requires ProcOk(env, t.index, t.files, i, t.procs[i])
    ensures ProcsOk(env, t) && Frame(env, s, t, i)
  {
    OwnTempOnly(env, s, t, i);
    OthersKeep(env, s, t, i);
  }

  lemma {:induction false} SameStore<S>(env: Env<S>, sources: seq<Upload>, s: State, t: State)
    requires StoreOk(env, sources, s.index, s.files) && t.index == s.index
    requires forall h :: BlobName(h) in s.files ==> BlobName(h) in t.files
    requires forall h :: BlobName(h) in t.files ==> BlobName(h) in s.files && t.files[BlobName(h)] == s.files[BlobName(h)]
    ensures StoreOk(env, sources, t.index, t.files)
  {
    forall h | BlobName(h) in t.files ensures FileFrom(env, sources, BlobName(h), t.files[BlobName(h)]) {
      assert BlobName(h) in s.files;
    }
    assert Backed(t.index, t.files);
  }

  // --- each step -------------------------------------------------------------

  lemma {:induction false} StartKeeps<S>(env: Env<S>, past: seq<Upload>, s: State, t: State, u: Upload)
    requires Inv(env, past, s) && Starts(s, t, u)
    ensures Inv(env, past, t) && Frame(env, s, t, |s.procs|)
  {
    assert Sources(past, t.procs) == Sources(past, s.procs) + [u];
    MoreSources(env, Sources(past, s.procs), s.index, s.files, u);
    forall j: nat | j != |s.procs| ensures SameTemp(env, s.files, t.files, j) {
    }
  }

  lemma {:induction false} MoreSources<S>(env: Env<S>, sources: seq<Upload>, index: Index, files: Files, u: Upload)
    requires StoreOk(env, sources, index, files)
    ensures StoreOk(env, sources + [u], index, files)
  {
    OldEntries(env, sources, index, u);
    forall h | BlobName(h) in files ensures FileFrom(env, sources + [u], BlobName(h), files[BlobName(h)]) {
      MoreFileSources(env, sources, BlobName(h), files[BlobName(h)], u);
    }
  }

  lemma {:induction false} MoreFileSources<S>(env: Env<S>, sources: seq<Upload>, name: string, bytes: Bytes, u: Upload)
    requires FileFrom(env, sources, name, bytes)
    ensures FileFrom(env, sources + [u], name, bytes)
  {
    var v :| v in sources && Intact(v.body) && bytes == Blob(env, v) && name == BlobName(env.sha(bytes));
    assert v in sources + [u];
  }

  /** The rename: the temp's bytes are this upload's blob, and land under their own hash. */
  lemma {:induction false} RenameKeeps<S>(env: Env<S>, past: seq<Upload>, s: State, t: State, i: nat)
    requires i < |s.procs| && Inv(env, past, s) && s.procs[i].phase.DestUnseen? && Intact(s.procs[i].upload.body) && Acts(env, s, t, i)
    ensures Inv(env, past, t) && Frame(env, s, t, i)
  {
    var u, tmp := s.procs[i].upload, Temp(env, i);
    var name := BlobName(Outer(env, u));
    assert ProcOk(env, s.index, s.files, i, s.procs[i]);
    assert t.files == (s.files - {tmp})[name := Blob(env, u)];
    SourcesSame(past, s.procs, i, Placing);
    assert FileFrom(env, Sources(past, t.procs), name, Blob(env, u)) by {
      assert t.procs[i].upload == u;
    }
    RenameFrame(env, s, t, i, Outer(env, u), Blob(env, u));
    forall h | BlobName(h) in t.files ensures FileFrom(env, Sources(past, t.procs), BlobName(h), t.files[BlobName(h)]) {
      if BlobName(h) != name {
        assert BlobName(h) in s.files;
      }
    }
    OthersKeep(env, s, t, i);
  }

  lemma {:induction false} RenameFrame<S>(env: Env<S>, s: State, t: State, i: nat, outer: ContentHash, blob: Bytes)
    requires t.index == s.index && t.files == (s.files - {Temp(env, i)})[BlobName(outer) := blob]
    ensures Frame(env, s, t, i)
  {
    forall h | BlobName(h) in s.files ensures BlobName(h) in t.files {
      TempIsNoBlob(env.pid, i, h);
    }
    forall j: nat | j != i ensures SameTemp(env, s.files, t.files, j) {
      TempIsNoBlob(env.pid, j, outer);
      if Temp(env, i) == Temp(env, j) {
        TempNamesDiffer(env.pid, i, env.pid, j);
      }
    }
  }

  lemma {:induction false} PutKeepsEntries<S>(env: Env<S>, sources: seq<Upload>, index: Index, u: Upload)
    requires EntriesFrom(env, sources, index) && u in sources && Intact(u.body)
    ensures EntriesFrom(env, sources, Offered(index, EntryOf(env, u)))
  {
    assert EntryFrom(env, sources, Inner(env, u), EntryOf(env, u));
  }

  lemma {:induction false} PutKeepsBacked(index: Index, files: Files, e: ArtifactEntry)
    requires Backed(index, files) && BlobName(e.outer) in files
    ensures Backed(Offered(index, e), files)
  {
  }

  lemma {:induction false} PutFrame<S>(env: Env<S>, s: State, t: State, i: nat, e: ArtifactEntry)
    requires t.files == s.files && t.index == Offered(s.index, e)
    ensures Frame(env, s, t, i)
  {
    forall j: nat ensures SameTemp(env, s.files, t.files, j) {
    }
  }

  lemma {:induction false} PutStore<S>(env: Env<S>, past: seq<Upload>, s: State, t: State, i: nat)
    requires i < |s.procs| && Intact(s.procs[i].upload.body) && StoreOk(env, Sources(past, s.procs), s.index, s.files)
    requires BlobName(Outer(env, s.procs[i].upload)) in s.files
    requires t == Moved(s, i, Indexed).(index := Offered(s.index, EntryOf(env, s.procs[i].upload)))
    ensures StoreOk(env, Sources(past, t.procs), t.index, t.files)
  {
    var u := s.procs[i].upload;
    SourcesSame(past, s.procs, i, Indexed);
    PutKeepsEntries(env, Sources(past, s.procs), s.index, u);
    PutKeepsBacked(s.index, s.files, EntryOf(env, u));
  }

  lemma {:induction false} PutProcs<S>(env: Env<S>, s: State, t: State, i: nat)
    requires i < |s.procs| && Intact(s.procs[i].upload.body) && ProcsOk(env, s)
    requires BlobName(Outer(env, s.procs[i].upload)) in s.files
    requires t == Moved(s, i, Indexed).(index := Offered(s.index, EntryOf(env, s.procs[i].upload)))
    ensures ProcsOk(env, t) && Frame(env, s, t, i)
  {
    PutFrame(env, s, t, i, EntryOf(env, s.procs[i].upload));
    assert ProcOk(env, t.index, t.files, i, t.procs[i]);
    OthersKeep(env, s, t, i);
  }

  lemma {:induction false} PutKeeps<S>(env: Env<S>, past: seq<Upload>, s: State, t: State, i: nat)
    requires i < |s.procs| && Inv(env, past, s) && s.procs[i].phase.Placing? && Intact(s.procs[i].upload.body) && Acts(env, s, t, i)
    ensures Inv(env, past, t) && Frame(env, s, t, i)
  {
    assert ProcOk(env, s.index, s.files, i, s.procs[i]);
    PutStore(env, past, s, t, i);
    PutProcs(env, s, t, i);
  }

  lemma {:induction false} StopKeeps<S>(env: Env<S>, past: seq<Upload>, s: State, t: State, i: nat)
    requires i < |s.procs| && Inv(env, past, s) && Stops(env, s, t, i)
    ensures Inv(env, past, t) && Frame(env, s, t, i)
  {
    assert (s.files - {Temp(env, i)}) - {Temp(env, i)} == s.files - {Temp(env, i)};
    TempStepKeeps(env, past, s, t, i, Stopped);
  }

  lemma {:induction false} WriteKeeps<S>(env: Env<S>, past: seq<Upload>, s: State, t: State, i: nat)
    requires i < |s.procs| && Inv(env, past, s) && s.procs[i].phase.Writing? && Intact(s.procs[i].upload.body) && Acts(env, s, t, i)
    ensures Inv(env, past, t) && Frame(env, s, t, i)
  {
    var u, tmp, done := s.procs[i].upload, Temp(env, i), s.procs[i].phase.done;
    var blob := Blob(env, u);
    assert ProcOk(env, s.index, s.files, i, s.procs[i]);
    if done == |blob| && t == Moved(s, i, Written) {
      assert blob[..done] == blob;
      TempStepKeeps(env, past, s, t, i, Written);
    } else {
      var upto: nat :| done < upto <= |blob| && t == Moved(s, i, Writing(upto)).(files := s.files[tmp := s.files[tmp] + blob[done..upto]]);
      AppendKeeps(env, past, s, t, i, blob, upto);
    }
  }

  lemma {:induction false} AppendKeeps<S>(env: Env<S>, past: seq<Upload>, s: State, t: State, i: nat, blob: Bytes, upto: nat)
    requires i < |s.procs| && Inv(env, past, s) && s.procs[i].phase.Writing?
    requires Intact(s.procs[i].upload.body) && blob == Blob(env, s.procs[i].upload)
    requires s.procs[i].phase.done < upto <= |blob| && HoldsTemp(env, s.files, i, blob[..s.procs[i].phase.done])
    requires t == Moved(s, i, Writing(upto)).(files := s.files[Temp(env, i) := s.files[Temp(env, i)] + blob[s.procs[i].phase.done..upto]])
    ensures Inv(env, past, t) && Frame(env, s, t, i)
  {
    var done := s.procs[i].phase.done;
    assert blob[..done] + blob[done..upto] == blob[..upto];
    assert t.files - {Temp(env, i)} == s.files - {Temp(env, i)};
    TempStepKeeps(env, past, s, t, i, Writing(upto));
  }

  lemma {:induction false} CreateKeeps<S>(env: Env<S>, past: seq<Upload>, s: State, t: State, i: nat)
    requires i < |s.procs| && Inv(env, past, s) && Intact(s.procs[i].upload.body)
    requires t == Moved(s, i, Writing(0)).(files := s.files[Temp(env, i) := []])
    ensures Inv(env, past, t) && Frame(env, s, t, i)
  {
    assert t.files - {Temp(env, i)} == s.files - {Temp(env, i)};
    assert Blob(env, s.procs[i].upload)[..0] == [];
    TempStepKeeps(env, past, s, t, i, Writing(0));
  }

  lemma {:induction false} LookupKeeps<S>(env: Env<S>, past: seq<Upload>, s: State, t: State, i: nat)
    requires i < |s.procs| && Inv(env, past, s) && Intact(s.procs[i].upload.body) && s.procs[i].phase.Written? && Acts(env, s, t, i)
    ensures Inv(env, past, t) && Frame(env, s, t, i)
  {
    if Inner(env, s.procs[i].upload) in s.index {
      IndexedIsGood(env, past, s, Inner(env, s.procs[i].upload));
    }
    TempStepKeeps(env, past, s, t, i, t.procs[i].phase);
  }

  /** Only the publisher's own phase changes. */
  lemma {:induction false} PhaseKeeps<S>(env: Env<S>, past: seq<Upload>, s: State, t: State, i: nat, phase: Phase)
    requires i < |s.procs| && Inv(env, past, s) && t == Moved(s, i, phase)
    requires ProcOk(env, s.index, s.files, i, s.procs[i]) ==> ProcOk(env, s.index, s.files, i, t.procs[i])
    ensures Inv(env, past, t) && Frame(env, s, t, i)
  {
    TempStepKeeps(env, past, s, t, i, phase);
  }

  lemma {:induction false} GoneTwice(files: Files, tmp: string)
    ensures (files - {tmp}) - {tmp} == files - {tmp}
  {
  }

  lemma {:induction false} BlobStays<S>(env: Env<S>, files: Files, i: nat, outer: ContentHash)
    requires BlobName(outer) in files
    ensures BlobName(outer) in files - {Temp(env, i)}
  {
    TempIsNoBlob(env.pid, i, outer);
  }

  lemma {:induction false} HitKeeps<S>(env: Env<S>, past: seq<Upload>, s: State, t: State, i: nat)
    requires i < |s.procs| && Inv(env, past, s) && Intact(s.procs[i].upload.body) && s.procs[i].phase.Hit? && Acts(env, s, t, i)
    ensures Inv(env, past, t) && Frame(env, s, t, i)
  {
    assert ProcOk(env, s.index, s.files, i, s.procs[i]);
    BlobStays(env, s.files, i, s.procs[i].phase.existing.outer);
    GoneTwice(s.files, Temp(env, i));
    TempStepKeeps(env, past, s, t, i, Returned(s.procs[i].phase.existing));
  }

  lemma {:induction false} TestKeeps<S>(env: Env<S>, past: seq<Upload>, s: State, t: State, i: nat)
    requires i < |s.procs| && Inv(env, past, s) && Intact(s.procs[i].upload.body) && s.procs[i].phase.Missed? && Acts(env, s, t, i)
    ensures Inv(env, past, t) && Frame(env, s, t, i)
  {
    if t == Moved(s, i, DestUnseen) {
      PhaseKeeps(env, past, s, t, i, DestUnseen);
    } else {
      PhaseKeeps(env, past, s, t, i, DestSeen);
    }
  }

  lemma {:induction false} ClearKeeps<S>(env: Env<S>, past: seq<Upload>, s: State, t: State, i: nat)
    requires i < |s.procs| && Inv(env, past, s) && Intact(s.procs[i].upload.body) && s.procs[i].phase.DestSeen? && Acts(env, s, t, i)
    ensures Inv(env, past, t) && Frame(env, s, t, i)
  {
    if t == Moved(s, i, Placing) {
      PhaseKeeps(env, past, s, t, i, Placing);
    } else {
      assert ProcOk(env, s.index, s.files, i, s.procs[i]);
      BlobStays(env, s.files, i, Outer(env, s.procs[i].upload));
      GoneTwice(s.files, Temp(env, i));
      TempStepKeeps(env, past, s, t, i, Placing);
    }
  }

  lemma {:induction false} AnswerKeeps<S>(env: Env<S>, past: seq<Upload>, s: State, t: State, i: nat)
    requires i < |s.procs| && Inv(env, past, s) && Intact(s.procs[i].upload.body) && s.procs[i].phase.Indexed? && Acts(env, s, t, i)
    ensures Inv(env, past, t) && Frame(env, s, t, i)
  {
    PhaseKeeps(env, past, s, t, i, Returned(RefOf(EntryOf(env, s.procs[i].upload))));
  }

  lemma {:induction false} IndexedIsGood<S>(env: Env<S>, past: seq<Upload>, s: State, inner: ContentHash)
    requires Inv(env, past, s) && inner in s.index
    ensures s.index[inner].inner == inner && GoodRef(s.index, s.files, RefOf(s.index[inner]))
  {
    assert EntryFrom(env, Sources(past, s.procs), inner, s.index[inner]);
  }

  /** Every step of every publisher keeps the invariant, all entries, all blobs and all other temps. */
  lemma {:induction false} StepKeepsAll<S>(env: Env<S>, past: seq<Upload>, s: State, t: State, i: nat)
    requires i < |s.procs| && Inv(env, past, s) && Intact(s.procs[i].upload.body) && Steps(env, s, t, i)
    ensures Inv(env, past, t) && Frame(env, s, t, i)
  {
    if Acts(env, s, t, i) {
      match s.procs[i].phase
      case Numbered => CreateKeeps(env, past, s, t, i);
      case Writing(_) => WriteKeeps(env, past, s, t, i);
      case Written => LookupKeeps(env, past, s, t, i);
      case Hit(_) => HitKeeps(env, past, s, t, i);
      case Missed => TestKeeps(env, past, s, t, i);
      case DestSeen => ClearKeeps(env, past, s, t, i);
      case DestUnseen => RenameKeeps(env, past, s, t, i);
      case Placing => PutKeeps(env, past, s, t, i);
      case Indexed => AnswerKeeps(env, past, s, t, i);
      case Returned(_) =>
      case Stopped =>
    } else {
      StopKeeps(env, past, s, t, i);
    }
  }
}
