/** The blob directory: content-addressed files, and the temp files they are staged in. */
module BlobStore {
  import opened Collections
  import opened ContentHashes
  import opened Canonical
  import opened Suit

  /** SHA-256 over bytes, any function will do. */
  type ByteSha = Bytes -> ContentHash

  /** The directory: bytes by file name. */
  type Files = map<string, Bytes>

  function BlobName(outer: ContentHash): string
  {
    HexEncode(outer.bytes)
  }

  function TempName(pid: nat, number: nat): string
  {
    ".tmp." + (Decimal(pid) + "." + Decimal(number))
  }

  /** A staging file is never mistaken for a blob. */
  lemma {:induction false} TempIsNoBlob(pid: nat, number: nat, outer: ContentHash)
    ensures TempName(pid, number) != BlobName(outer)
  {
    assert TempName(pid, number)[0] == '.';
    assert BlobName(outer)[0] in BlobName(outer);
  }

  lemma {:induction false} AfterHead(head: string, a: string, b: string)
    requires head + a == head + b
    ensures a == b
  {
    assert (head + a)[|head|..] == a && (head + b)[|head|..] == b;
  }

  /** Publishers with different numbers, or in different processes, stage in different files. */
  lemma {:induction false} TempNamesDiffer(pid: nat, a: nat, other: nat, b: nat)
    requires TempName(pid, a) == TempName(other, b)
    ensures pid == other && a == b
  {
    AfterHead(".tmp.", Decimal(pid) + "." + Decimal(a), Decimal(other) + "." + Decimal(b));
    SplitUnique('.', Decimal(pid), Decimal(a), Decimal(other), Decimal(b));
    DecimalInjective(pid, other);
    DecimalInjective(a, b);
  }

  /** Publish a staged file: drop it if the blob is there already, otherwise move it into place. */
  function Settled(files: Files, tmp: string, outer: ContentHash): Files
    requires tmp in files
  {
    if BlobName(outer) in files then files - {tmp} else (files - {tmp})[BlobName(outer) := files[tmp]]
  }

  class FsBlobStore {
    const pid: nat
    var files: Files
    var tempSeq: nat

    constructor (pid: nat)
      ensures this.pid == pid && files == map[] && tempSeq == 0
    {
      this.pid := pid;
      files, tempSeq := map[], 0;
    }

    /** Take the next number and create (or truncate) the temp file of that name. */
    method Begin() returns (sink: FsBlobSink)
      modifies this
      ensures fresh(sink) && sink.store == this && sink.tmp == TempName(pid, old(tempSeq))
      ensures sink.open && !sink.committed
      ensures tempSeq == old(tempSeq) + 1 && files == old(files)[sink.tmp := []]
    {
      var tmp := TempName(pid, tempSeq);
      tempSeq := tempSeq + 1;
      files := files[tmp := []];
      sink := new FsBlobSink(this, tmp);
    }

    method Open(outer: ContentHash) returns (r: Option<Bytes>)
      ensures r == if BlobName(outer) in files then Some(files[BlobName(outer)]) else None
    {
      var name := BlobName(outer);
      r := if name in files then Some(files[name]) else None;
    }
  }

  class FsBlobSink {
    const store: FsBlobStore
    const tmp: string
    var open: bool
    var committed: bool

    constructor (store: FsBlobStore, tmp: string)
      ensures this.store == store && this.tmp == tmp && open && !committed
    {
      this.store, this.tmp := store, tmp;
      open, committed := true, false;
    }

    method WriteAll(buf: Bytes)
      requires open && tmp in store.files
      modifies store`files
      ensures store.files == old(store.files)[tmp := old(store.files[tmp]) + buf]
    {
      store.files := store.files[tmp := store.files[tmp] + buf];
    }

    method Commit(outer: ContentHash)
      requires tmp in store.files && tmp != BlobName(outer)
      modifies this, store`files
      ensures !open && committed
      ensures store.files == Settled(old(store.files), tmp, outer)
    {
      open := false;
      var dest := BlobName(outer);
      if dest in store.files {
        store.files := store.files - {tmp};
      } else {
        var bytes := store.files[tmp];
        store.files := (store.files - {tmp})[dest := bytes];
      }
      committed := true;
    }

    /** Leaving scope: an uncommitted temp is discarded. */
    method Drop()
      modifies store`files
      ensures store.files == if committed then old(store.files) else old(store.files) - {tmp}
    {
      if !committed {
        store.files := store.files - {tmp};
      }
    }
  }
}
