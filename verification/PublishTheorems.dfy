/** What publishing is for: whatever was uploaded can be fetched, opened and deployed. */
module PublishTheorems {
  import opened Collections
  import opened ContentHashes
  import opened Suit
  import opened BlobStore
  import opened Publish

  datatype Env<!S> = Env(sha: ByteSha, cipher: Cipher, codec: Codec<S>, pid: nat)

  datatype Upload = Upload(body: seq<Chunk>, cek: Bytes, nonce: Bytes)

  function Blob<S>(env: Env<S>, u: Upload): Bytes
    requires Intact(u.body)
  {
    Sealed(env.cipher, env.codec, u.cek, u.nonce, u.body)
  }

  function EntryOf<S>(env: Env<S>, u: Upload): ArtifactEntry
    requires Intact(u.body)
  {
    ArtifactEntry(env.sha(Plain(u.body)), env.sha(Blob(env, u)), u.cek, u.nonce, |Plain(u.body)|)
  }

  function Step<S>(env: Env<S>, index: Index, files: Files, number: nat, u: Upload): (Index, Files, Result<ArtifactRef, PublishError>)
  {
    Published(env.sha, env.cipher, env.codec, index, files, TempName(env.pid, number), u.body, u.cek, u.nonce)
  }

  /** Index and directory after publishing the uploads one after another. */
  function After<S>(env: Env<S>, uploads: seq<Upload>): (Index, Files)
  {
    if uploads == [] then (map[], map[])
    else
      var n := |uploads| - 1;
      var (index, files) := After(env, uploads[..n]);
      var (laterIndex, laterFiles, _) := Step(env, index, files, n, uploads[n]);
      (laterIndex, laterFiles)
  }

  // --- chunking does not matter ----------------------------------------------

  /**
   Two bodies with the same bytes, however each is cut, get the same inner hash and size, and blobs
   that open to those bytes; the second of them is answered with the first one's reference.
   */
  lemma {:induction false} ChunkingIrrelevant<S(!new)>(env: Env<S>, first: Upload, second: Upload, index: Index, files: Files, number: nat)
    requires Lossless(env.codec) && Intact(first.body) && Intact(second.body) && Plain(first.body) == Plain(second.body)
    ensures EntryOf(env, first).inner == EntryOf(env, second).inner && EntryOf(env, first).size == EntryOf(env, second).size
    ensures Opened(env.cipher, env.codec, first.cek, first.nonce, Blob(env, first)) == Some(Plain(first.body))
    ensures Opened(env.cipher, env.codec, second.cek, second.nonce, Blob(env, second)) == Some(Plain(first.body))
    ensures var (laterIndex, laterFiles, r) := Step(env, index, files, number, first);
            var (finalIndex, _, again) := Step(env, laterIndex, laterFiles, number + 1, second);
            finalIndex == laterIndex && again == r
  {
    SealedOpens(env.cipher, env.codec, first.cek, first.nonce, first.body);
    SealedOpens(env.cipher, env.codec, second.cek, second.nonce, second.body);
  }

  // --- what a run of uploads keeps -------------------------------------------

  /** The file is some upload's blob under its own hash. */
  ghost predicate FileFrom<S>(env: Env<S>, uploads: seq<Upload>, name: string, bytes: Bytes)
  {
    exists u :: u in uploads && Intact(u.body) && bytes == Blob(env, u) && name == BlobName(env.sha(bytes))
  }

  ghost predicate EntryFrom<S>(env: Env<S>, uploads: seq<Upload>, inner: ContentHash, e: ArtifactEntry)
  {
    exists u :: u in uploads && Intact(u.body) && e == EntryOf(env, u) && inner == e.inner
  }

  ghost predicate FilesFrom<S>(env: Env<S>, uploads: seq<Upload>, files: Files)
  {
    forall name :: name in files ==> FileFrom(env, uploads, name, files[name])
  }

  /** Every file with a blob's name is some upload's blob, under its own hash. */
  ghost predicate BlobsFrom<S>(env: Env<S>, uploads: seq<Upload>, files: Files)
  {
    forall h :: BlobName(h) in files ==> FileFrom(env, uploads, BlobName(h), files[BlobName(h)])
  }

  ghost predicate EntriesFrom<S>(env: Env<S>, uploads: seq<Upload>, index: Index)
  {
    forall inner :: inner in index ==> EntryFrom(env, uploads, inner, index[inner])
  }

  /** Every entry's blob is in place. */
  ghost predicate Backed(index: Index, files: Files)
  {
    forall inner :: inner in index ==> BlobName(index[inner].outer) in files
  }

  ghost predicate Covered<S>(env: Env<S>, index: Index, u: Upload)
  {
    Intact(u.body) ==> env.sha(Plain(u.body)) in index
  }

  ghost predicate AllCovered<S>(env: Env<S>, uploads: seq<Upload>, index: Index)
  {
    forall u {:trigger Covered(env, index, u)} :: u in uploads ==> Covered(env, index, u)
  }

  ghost predicate StoreInv<S>(env: Env<S>, uploads: seq<Upload>, index: Index, files: Files)
  {
    FilesFrom(env, uploads, files) && EntriesFrom(env, uploads, index) && Backed(index, files) && AllCovered(env, uploads, index)
  }

  lemma {:induction false} NoTempLeft<S>(env: Env<S>, uploads: seq<Upload>, index: Index, files: Files, number: nat)
    requires StoreInv(env, uploads, index, files)
    ensures TempName(env.pid, number) !in files
  {
    var tmp := TempName(env.pid, number);
    if tmp in files {
      assert FileFrom(env, uploads, tmp, files[tmp]);
      TempIsNoBlob(env.pid, number, env.sha(files[tmp]));
    }
  }

  /** What a step that adds something does to the tables. */
  ghost predicate Adds<S>(env: Env<S>, index: Index, files: Files, u: Upload, laterIndex: Index, laterFiles: Files)
    requires Intact(u.body)
  {
    && laterIndex == index[env.sha(Plain(u.body)) := EntryOf(env, u)]
    && laterFiles == Placed(files, env.sha(Blob(env, u)), Blob(env, u))
  }

  /** A step adds one entry with its blob, or nothing. */
  lemma {:induction false} StepCases<S>(env: Env<S>, index: Index, files: Files, number: nat, u: Upload)
    requires TempName(env.pid, number) !in files
    ensures var later := Step(env, index, files, number, u);
            if Intact(u.body) && env.sha(Plain(u.body)) !in index then Adds(env, index, files, u, later.0, later.1)
            else later.0 == index && later.1 == files
  {
    assert files - {TempName(env.pid, number)} == files;
  }

  lemma {:induction false} OldFiles<S>(env: Env<S>, uploads: seq<Upload>, files: Files, u: Upload)
    requires FilesFrom(env, uploads, files)
    ensures FilesFrom(env, uploads + [u], files)
  {
    forall name | name in files ensures FileFrom(env, uploads + [u], name, files[name]) {
      var bytes := files[name];
      assert FileFrom(env, uploads, name, bytes);
      var v :| v in uploads && Intact(v.body) && bytes == Blob(env, v) && name == BlobName(env.sha(bytes));
      assert v in uploads + [u];
    }
  }

  lemma {:induction false} OldEntries<S>(env: Env<S>, uploads: seq<Upload>, index: Index, u: Upload)
    requires EntriesFrom(env, uploads, index)
    ensures EntriesFrom(env, uploads + [u], index)
  {
    forall inner | inner in index ensures EntryFrom(env, uploads + [u], inner, index[inner]) {
      var e := index[inner];
      assert EntryFrom(env, uploads, inner, e);
      var v :| v in uploads && Intact(v.body) && e == EntryOf(env, v) && inner == e.inner;
      assert v in uploads + [u];
    }
  }

  lemma {:induction false} NewFile<S>(env: Env<S>, uploads: seq<Upload>, files: Files, u: Upload)
    requires FilesFrom(env, uploads, files) && Intact(u.body)
    ensures FilesFrom(env, uploads + [u], Placed(files, env.sha(Blob(env, u)), Blob(env, u)))
  {
    OldFiles(env, uploads, files, u);
    assert u in uploads + [u];
    assert FileFrom(env, uploads + [u], BlobName(env.sha(Blob(env, u))), Blob(env, u));
  }

  lemma {:induction false} NewEntry<S>(env: Env<S>, uploads: seq<Upload>, index: Index, u: Upload)
    requires EntriesFrom(env, uploads, index) && Intact(u.body)
    ensures EntriesFrom(env, uploads + [u], index[env.sha(Plain(u.body)) := EntryOf(env, u)])
  {
    OldEntries(env, uploads, index, u);
    assert u in uploads + [u];
    assert EntryFrom(env, uploads + [u], env.sha(Plain(u.body)), EntryOf(env, u));
  }

  lemma {:induction false} StillBacked(index: Index, files: Files, inner: ContentHash, e: ArtifactEntry, blob: Bytes)
    requires Backed(index, files)
    ensures Backed(index[inner := e], Placed(files, e.outer, blob))
  {
  }

  lemma {:induction false} NowCovered<S>(env: Env<S>, uploads: seq<Upload>, index: Index, u: Upload, laterIndex: Index)
    requires AllCovered(env, uploads, index) && index.Keys <= laterIndex.Keys && Covered(env, laterIndex, u)
    ensures AllCovered(env, uploads + [u], laterIndex)
  {
    forall v | v in uploads + [u] ensures Covered(env, laterIndex, v) {
      assert v in uploads ==> Covered(env, index, v);
    }
  }

  lemma {:induction false} AddKeeps<S>(env: Env<S>, uploads: seq<Upload>, index: Index, files: Files, u: Upload, laterIndex: Index, laterFiles: Files)
    requires StoreInv(env, uploads, index, files) && Intact(u.body) && Adds(env, index, files, u, laterIndex, laterFiles)
    ensures StoreInv(env, uploads + [u], laterIndex, laterFiles)
  {
    NewFile(env, uploads, files, u);
    NewEntry(env, uploads, index, u);
    StillBacked(index, files, env.sha(Plain(u.body)), EntryOf(env, u), Blob(env, u));
    NowCovered(env, uploads, index, u, laterIndex);
  }

  lemma {:induction false} StepKeeps<S>(env: Env<S>, uploads: seq<Upload>, index: Index, files: Files, number: nat, u: Upload)
    requires StoreInv(env, uploads, index, files)
    ensures StoreInv(env, uploads + [u], Step(env, index, files, number, u).0, Step(env, index, files, number, u).1)
  {
    NoTempLeft(env, uploads, index, files, number);
    StepCases(env, index, files, number, u);
    if Intact(u.body) && env.sha(Plain(u.body)) !in index {
      AddKeeps(env, uploads, index, files, u, Step(env, index, files, number, u).0, Step(env, index, files, number, u).1);
    } else {
      OldFiles(env, uploads, files, u);
      OldEntries(env, uploads, index, u);
      NowCovered(env, uploads, index, u, index);
    }
  }

  lemma {:induction false} RunKeeps<S>(env: Env<S>, uploads: seq<Upload>)
    ensures StoreInv(env, uploads, After(env, uploads).0, After(env, uploads).1)
  {
    if uploads != [] {
      var n := |uploads| - 1;
      var before := After(env, uploads[..n]);
      RunKeeps(env, uploads[..n]);
      StepKeeps(env, uploads[..n], before.0, before.1, n, uploads[n]);
      assert uploads[..n] + [uploads[n]] == uploads;
      AfterLast(env, uploads);
    }
  }

  lemma {:induction false} AfterLast<S>(env: Env<S>, uploads: seq<Upload>)
    requires uploads != []
    ensures var n := |uploads| - 1;
            var before := After(env, uploads[..n]);
            var step := Step(env, before.0, before.1, n, uploads[n]);
            After(env, uploads) == (step.0, step.1)
  {
  }

  /** Every entry and every file is still there, unchanged. */
  ghost predicate Grown(index: Index, files: Files, laterIndex: Index, laterFiles: Files)
  {
    && (forall inner :: inner in index ==> inner in laterIndex && laterIndex[inner] == index[inner])
    && (forall name :: name in files ==> name in laterFiles && laterFiles[name] == files[name])
  }

  lemma {:induction false} AddsGrows<S>(env: Env<S>, index: Index, files: Files, u: Upload, laterIndex: Index, laterFiles: Files)
    requires Intact(u.body) && env.sha(Plain(u.body)) !in index && Adds(env, index, files, u, laterIndex, laterFiles)
    ensures Grown(index, files, laterIndex, laterFiles)
  {
  }

  lemma {:induction false} StepGrows<S>(env: Env<S>, index: Index, files: Files, number: nat, u: Upload)
    requires TempName(env.pid, number) !in files
    ensures Grown(index, files, Step(env, index, files, number, u).0, Step(env, index, files, number, u).1)
  {
    StepCases(env, index, files, number, u);
    if Intact(u.body) && env.sha(Plain(u.body)) !in index {
      AddsGrows(env, index, files, u, Step(env, index, files, number, u).0, Step(env, index, files, number, u).1);
    }
  }

  lemma {:induction false} GrownTransitive(i0: Index, f0: Files, i1: Index, f1: Files, i2: Index, f2: Files)
    requires Grown(i0, f0, i1, f1) && Grown(i1, f1, i2, f2)
    ensures Grown(i0, f0, i2, f2)
  {
  }

  /** An entry once written is never changed, nor is a blob once placed. */
  lemma {:induction false} NothingChanges<S>(env: Env<S>, uploads: seq<Upload>, n: nat)
    requires n <= |uploads|
    ensures Grown(After(env, uploads[..n]).0, After(env, uploads[..n]).1, After(env, uploads).0, After(env, uploads).1)
    decreases |uploads|
  {
    if n == |uploads| {
      assert uploads[..n] == uploads;
    } else {
      var m := |uploads| - 1;
      NothingChanges(env, uploads[..m], n);
      assert uploads[..m][..n] == uploads[..n];
      RunKeeps(env, uploads[..m]);
      var mid := After(env, uploads[..m]);
      NoTempLeft(env, uploads[..m], mid.0, mid.1, m);
      StepGrows(env, mid.0, mid.1, m, uploads[m]);
      AfterLast(env, uploads);
      GrownTransitive(After(env, uploads[..n]).0, After(env, uploads[..n]).1, mid.0, mid.1, After(env, uploads).0, After(env, uploads).1);
    }
  }

  // --- fetching back ---------------------------------------------------------

  /** The hash tells these plaintexts apart, and these blobs. */
  ghost predicate Separated<S>(env: Env<S>, uploads: seq<Upload>)
  {
    forall u, v :: u in uploads && v in uploads && Intact(u.body) && Intact(v.body) ==> Separate(env, u, v)
  }

  ghost predicate Separate<S>(env: Env<S>, u: Upload, v: Upload)
    requires Intact(u.body) && Intact(v.body)
  {
    && (env.sha(Plain(u.body)) == env.sha(Plain(v.body)) ==> Plain(u.body) == Plain(v.body))
    && (env.sha(Blob(env, u)) == env.sha(Blob(env, v)) ==> Blob(env, u) == Blob(env, v))
  }

  /** Looking up the hash of these bytes finds an entry whose key and nonce open its blob to them. */
  ghost predicate Fetchable<S>(env: Env<S>, index: Index, files: Files, plain: Bytes)
  {
    && env.sha(plain) in index
    && var e := index[env.sha(plain)];
       && e.inner == env.sha(plain) && e.size == |plain|
       && BlobName(e.outer) in files
       && env.sha(files[BlobName(e.outer)]) == e.outer
       && Opened(env.cipher, env.codec, e.cek, e.nonce, files[BlobName(e.outer)]) == Some(plain)
  }

  lemma {:induction false} BlobOf<S>(env: Env<S>, uploads: seq<Upload>, files: Files, v: Upload)
    requires Separated(env, uploads) && v in uploads && Intact(v.body)
    requires var name := BlobName(env.sha(Blob(env, v)));
             name in files && FileFrom(env, uploads, name, files[name])
    ensures files[BlobName(env.sha(Blob(env, v)))] == Blob(env, v)
  {
    var outer := env.sha(Blob(env, v));
    var bytes := files[BlobName(outer)];
    var w :| w in uploads && Intact(w.body) && bytes == Blob(env, w) && BlobName(outer) == BlobName(env.sha(bytes));
    HexInjective(outer, env.sha(bytes));
    assert Separate(env, v, w);
  }

  lemma {:induction false} OpensFor<S>(env: Env<S>, index: Index, files: Files, plain: Bytes, v: Upload)
    requires Intact(v.body) && Plain(v.body) == plain && env.sha(plain) in index && index[env.sha(plain)] == EntryOf(env, v)
    requires var name := BlobName(env.sha(Blob(env, v)));
             name in files && files[name] == Blob(env, v)
    requires Opened(env.cipher, env.codec, v.cek, v.nonce, Blob(env, v)) == Some(plain)
    ensures Fetchable(env, index, files, plain)
  {
  }

  lemma {:induction false} EntrySource<S>(env: Env<S>, uploads: seq<Upload>, index: Index, files: Files, u: Upload) returns (v: Upload)
    requires Separated(env, uploads) && EntriesFrom(env, uploads, index) && Backed(index, files)
    requires u in uploads && Intact(u.body) && env.sha(Plain(u.body)) in index
    ensures v in uploads && Intact(v.body) && Plain(v.body) == Plain(u.body)
    ensures index[env.sha(Plain(u.body))] == EntryOf(env, v)
    ensures BlobName(env.sha(Blob(env, v))) in files
  {
    var inner := env.sha(Plain(u.body));
    assert EntryFrom(env, uploads, inner, index[inner]);
    v :| v in uploads && Intact(v.body) && index[inner] == EntryOf(env, v) && inner == index[inner].inner;
    assert Separate(env, u, v);
  }

  lemma {:induction false} EntryOpens<S(!new)>(env: Env<S>, uploads: seq<Upload>, index: Index, files: Files, u: Upload)
    requires Lossless(env.codec) && Separated(env, uploads)
    requires BlobsFrom(env, uploads, files) && EntriesFrom(env, uploads, index) && Backed(index, files)
    requires u in uploads && Intact(u.body) && env.sha(Plain(u.body)) in index
    ensures Fetchable(env, index, files, Plain(u.body))
  {
    var v := EntrySource(env, uploads, index, files, u);
    BlobOf(env, uploads, files, v);
    SealedOpens(env.cipher, env.codec, v.cek, v.nonce, v.body);
    OpensFor(env, index, files, Plain(u.body), v);
  }

  /** After any run of uploads, broken ones included, every complete upload can be fetched and opened. */
  lemma {:induction false} EveryUploadFetchable<S(!new)>(env: Env<S>, uploads: seq<Upload>, u: Upload)
    requires Lossless(env.codec) && Separated(env, uploads) && u in uploads && Intact(u.body)
    ensures var (index, files) := After(env, uploads); Fetchable(env, index, files, Plain(u.body))
  {
    RunKeeps(env, uploads);
    var (index, files) := After(env, uploads);
    assert Covered(env, index, u);
    EntryOpens(env, uploads, index, files, u);
  }
}
