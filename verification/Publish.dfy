/**
 Streaming publish: hash, compress, encrypt, hash again and store, one body chunk at a time.
 AES-GCM is counter mode under an unknown keystream with an unknown tag over the ciphertext
 (section 7.1 of NIST SP 800-38D); zstd is any streaming codec that loses nothing.
 */
module Publish {
  import opened Collections
  import opened ContentHashes
  import opened Suit
  import opened BlobStore

  // --- the cipher ------------------------------------------------------------

  const TAG_LEN: nat := 16

  type Tag = t: Bytes | |t| == 16 witness seq(16, _ => 0)

  datatype Cipher = Cipher(keystream: (Bytes, Bytes, nat) -> bv8, tag: (Bytes, Bytes, Bytes) -> Tag) {
    /** Keystream applied from a given offset on; the same operation encrypts and decrypts. */
    function Apply(cek: Bytes, nonce: Bytes, offset: nat, s: Bytes): (r: Bytes)
      ensures |r| == |s| && forall i :: 0 <= i < |s| ==> r[i] == s[i] ^ keystream(cek, nonce, offset + i)
    {
      seq(|s|, i requires 0 <= i < |s| => s[i] ^ keystream(cek, nonce, offset + i))
    }

    /** The reading side: split off the tag, check it, undo the keystream. */
    function Decrypt(cek: Bytes, nonce: Bytes, blob: Bytes): Option<Bytes>
    {
      if |blob| < TAG_LEN then None
      else
        var body := blob[..|blob| - TAG_LEN];
        if blob[|blob| - TAG_LEN..] == tag(cek, nonce, body) then Some(Apply(cek, nonce, 0, body)) else None
    }
  }

  lemma {:induction false} ApplyAppend(c: Cipher, cek: Bytes, nonce: Bytes, a: Bytes, b: Bytes)
    ensures c.Apply(cek, nonce, 0, a + b) == c.Apply(cek, nonce, 0, a) + c.Apply(cek, nonce, |a|, b)
  {
  }

  lemma {:induction false} XorTwice(x: bv8, k: bv8)
    ensures (x ^ k) ^ k == x
  {
  }

  lemma {:induction false} ApplyTwice(c: Cipher, cek: Bytes, nonce: Bytes, s: Bytes)
    ensures c.Apply(cek, nonce, 0, c.Apply(cek, nonce, 0, s)) == s
  {
    forall i | 0 <= i < |s| ensures c.Apply(cek, nonce, 0, c.Apply(cek, nonce, 0, s))[i] == s[i] {
      XorTwice(s[i], c.keystream(cek, nonce, 0 + i));
    }
  }

  class ByteBuffer {
    var data: Bytes

    constructor ()
      ensures data == []
    {
      data := [];
    }
  }

  class StreamEncryptor {
    const cipher: Cipher
    const cek: Bytes
    const nonce: Bytes
    /** The ciphertext so far: it fixes the counter and what the tag will cover. */
    var absorbed: Bytes

    constructor (cipher: Cipher, cek: Bytes, nonce: Bytes)
      ensures this.cipher == cipher && this.cek == cek && this.nonce == nonce && absorbed == []
    {
      this.cipher, this.cek, this.nonce := cipher, cek, nonce;
      absorbed := [];
    }

    /** Encrypt one chunk; whatever the buffer held from the round before is gone. */
    method Update(plaintext: Bytes, out: ByteBuffer)
      modifies this, out
      ensures out.data == cipher.Apply(cek, nonce, |old(absorbed)|, plaintext)
      ensures absorbed == old(absorbed) + out.data
    {
      out.data := [];
      out.data := seq(|plaintext|, _ => 0);
      for i := 0 to |plaintext|
        invariant |out.data| == |plaintext| && absorbed == old(absorbed)
        invariant forall k :: 0 <= k < i ==> out.data[k] == plaintext[k] ^ cipher.keystream(cek, nonce, |absorbed| + k)
      {
        out.data := out.data[i := plaintext[i] ^ cipher.keystream(cek, nonce, |absorbed| + i)];
      }
      absorbed := absorbed + out.data;
    }

    method Finish() returns (tag: Tag)
      ensures tag == cipher.tag(cek, nonce, absorbed)
    {
      tag := cipher.tag(cek, nonce, absorbed);
    }
  }

  // --- the codec -------------------------------------------------------------

  datatype Codec<!S> = Codec(start: S, write: (S, Bytes) -> (S, Bytes), finish: S -> Bytes, decompress: Bytes -> Option<Bytes>) {
    function After(chunks: seq<Bytes>): S
    {
      if chunks == [] then start else write(After(chunks[..|chunks| - 1]), chunks[|chunks| - 1]).0
    }

    /** What the writes themselves emitted; some may have emitted nothing. */
    function Emitted(chunks: seq<Bytes>): Bytes
    {
      if chunks == [] then []
      else Emitted(chunks[..|chunks| - 1]) + write(After(chunks[..|chunks| - 1]), chunks[|chunks| - 1]).1
    }

    function Frame(chunks: seq<Bytes>): Bytes
    {
      Emitted(chunks) + finish(After(chunks))
    }
  }

  /** However the input was cut into writes, decompressing the frame gives it back. */
  ghost predicate Lossless<S(!new)>(codec: Codec<S>)
  {
    forall chunks: seq<Bytes> :: codec.decompress(codec.Frame(chunks)) == Some(Flatten(chunks))
  }

  /** A codec that keeps everything until the end, and the contract holds of it. */
  function Hoarding(): Codec<Bytes>
  {
    Codec([], (held: Bytes, chunk: Bytes) => (held + chunk, []), (held: Bytes) => held, (frame: Bytes) => Some(frame))
  }

  lemma {:induction false} HoardingHolds(chunks: seq<Bytes>)
    ensures Hoarding().After(chunks) == Flatten(chunks) && Hoarding().Emitted(chunks) == []
  {
    if chunks != [] {
      HoardingHolds(chunks[..|chunks| - 1]);
    }
  }

  lemma {:induction false} HoardingIsLossless()
    ensures Lossless(Hoarding())
  {
    forall chunks: seq<Bytes> ensures Hoarding().decompress(Hoarding().Frame(chunks)) == Some(Flatten(chunks)) {
      HoardingHolds(chunks);
      assert Hoarding().Frame(chunks) == Flatten(chunks);
    }
  }

  class Encoder<S> {
    const codec: Codec<S>
    var state: S
    var pending: Bytes

    constructor (codec: Codec<S>)
      ensures this.codec == codec && state == codec.start && pending == []
    {
      this.codec := codec;
      state, pending := codec.start, [];
    }

    method WriteAll(chunk: Bytes)
      modifies this
      ensures chunk == [] ==> state == old(state) && pending == old(pending)
      ensures chunk != [] ==> (state, pending) == (codec.write(old(state), chunk).0, old(pending) + codec.write(old(state), chunk).1)
    {
      if chunk != [] {
        var (next, emitted) := codec.write(state, chunk);
        state, pending := next, pending + emitted;
      }
    }

    method Take() returns (r: Bytes)
      modifies this`pending
      ensures r == old(pending) && pending == []
    {
      r, pending := pending, [];
    }

    method Finish() returns (r: Bytes)
      ensures r == pending + codec.finish(state)
    {
      r := pending + codec.finish(state);
    }
  }

  // --- the body --------------------------------------------------------------

  datatype Chunk = Data(bytes: Bytes) | Aborted

  predicate Intact(body: seq<Chunk>)
  {
    forall i :: 0 <= i < |body| ==> body[i].Data?
  }

  /** The uploaded bytes, whatever the chunking. */
  function Plain(body: seq<Chunk>): Bytes
    requires Intact(body)
  {
    if body == [] then [] else Plain(body[..|body| - 1]) + body[|body| - 1].bytes
  }

  /** An empty chunk is not written at all. */
  function Fed(writes: seq<Bytes>, chunk: Bytes): seq<Bytes>
  {
    if chunk == [] then writes else writes + [chunk]
  }

  /** The non-empty chunks: what actually reaches the codec. */
  function Writes(body: seq<Chunk>): seq<Bytes>
    requires Intact(body)
  {
    if body == [] then [] else Fed(Writes(body[..|body| - 1]), body[|body| - 1].bytes)
  }

  lemma {:induction false} WritesArePlain(body: seq<Chunk>)
    requires Intact(body)
    ensures Flatten(Writes(body)) == Plain(body)
  {
    if body != [] {
      var init, last := body[..|body| - 1], body[|body| - 1].bytes;
      WritesArePlain(init);
      if last != [] {
        FlattenSnoc(Writes(init), last);
      }
    }
  }

  function SealedFrame(cipher: Cipher, cek: Bytes, nonce: Bytes, frame: Bytes): Bytes
  {
    var ct := cipher.Apply(cek, nonce, 0, frame);
    ct + cipher.tag(cek, nonce, ct)
  }

  /** The blob a body becomes. */
  function Sealed<S>(cipher: Cipher, codec: Codec<S>, cek: Bytes, nonce: Bytes, body: seq<Chunk>): Bytes
    requires Intact(body)
  {
    SealedFrame(cipher, cek, nonce, codec.Frame(Writes(body)))
  }

  /** What a device reads out of a blob: decrypt, then decompress. */
  function Opened<S>(cipher: Cipher, codec: Codec<S>, cek: Bytes, nonce: Bytes, blob: Bytes): Option<Bytes>
  {
    match cipher.Decrypt(cek, nonce, blob)
    case None => None
    case Some(frame) => codec.decompress(frame)
  }

  /** Opening what was sealed gives the plaintext back, for every chunking of it. */
  lemma {:induction false} SealedOpens<S(!new)>(cipher: Cipher, codec: Codec<S>, cek: Bytes, nonce: Bytes, body: seq<Chunk>)
    requires Intact(body) && Lossless(codec)
    ensures Opened(cipher, codec, cek, nonce, Sealed(cipher, codec, cek, nonce, body)) == Some(Plain(body))
  {
    var frame := codec.Frame(Writes(body));
    var ct := cipher.Apply(cek, nonce, 0, frame);
    var blob := Sealed(cipher, codec, cek, nonce, body);
    assert blob[..|blob| - TAG_LEN] == ct && blob[|blob| - TAG_LEN..] == cipher.tag(cek, nonce, ct);
    ApplyTwice(cipher, cek, nonce, frame);
    WritesArePlain(body);
  }

  // --- the publisher ---------------------------------------------------------

  datatype ArtifactRef = ArtifactRef(inner: ContentHash, outer: ContentHash, size: nat)

  datatype PublishError = UploadAborted

  datatype FetchError = BadHash | NotFound

  function RefOf(e: ArtifactEntry): ArtifactRef
  {
    ArtifactRef(e.inner, e.outer, e.size)
  }

  /** Encrypt one compressed piece, add it to the outer hash's input and to the sink. */
  method Pump(enc: StreamEncryptor, piece: Bytes, ct: ByteBuffer, sink: FsBlobSink, outerInput: Bytes, ghost compressed: Bytes)
    returns (hashed: Bytes)
    requires sink.open && sink.tmp in sink.store.files
    requires enc.absorbed == enc.cipher.Apply(enc.cek, enc.nonce, 0, compressed)
    requires sink.store.files[sink.tmp] == enc.absorbed && outerInput == enc.absorbed
    modifies enc, ct, sink.store`files
    ensures enc.absorbed == enc.cipher.Apply(enc.cek, enc.nonce, 0, compressed + piece) && hashed == enc.absorbed
    ensures sink.store.files == old(sink.store.files)[sink.tmp := enc.absorbed]
  {
    hashed := outerInput;
    assert piece == [] ==> compressed + piece == compressed;
    if piece != [] {
      ApplyAppend(enc.cipher, enc.cek, enc.nonce, compressed, piece);
      enc.Update(piece, ct);
      hashed := hashed + ct.data;
      sink.WriteAll(ct.data);
    }
  }

  class Publisher<S> {
    const blobs: FsBlobStore
    const cipher: Cipher
    const codec: Codec<S>
    const sha: ByteSha
    var index: Index

    constructor (blobs: FsBlobStore, cipher: Cipher, codec: Codec<S>, sha: ByteSha)
      ensures this.blobs == blobs && this.cipher == cipher && this.codec == codec && this.sha == sha && index == map[]
    {
      this.blobs, this.cipher, this.codec, this.sha := blobs, cipher, codec, sha;
      index := map[];
    }

    method Compress(zenc: Encoder<S>, chunk: Bytes, ghost before: seq<Bytes>) returns (compressed: Bytes)
      requires zenc.pending == [] && zenc.state == zenc.codec.After(before)
      modifies zenc
      ensures zenc.pending == [] && zenc.state == zenc.codec.After(Fed(before, chunk))
      ensures zenc.codec.Emitted(Fed(before, chunk)) == zenc.codec.Emitted(before) + compressed
    {
      FedGrows(zenc.codec, before, chunk);
      zenc.WriteAll(chunk);
      compressed := zenc.Take();
    }

    /** One body chunk: compress it, and pass on what the codec let go. */
    method Round(chunk: Bytes, zenc: Encoder<S>, enc: StreamEncryptor, ct: ByteBuffer, sink: FsBlobSink, outerInput: Bytes, ghost before: seq<Bytes>)
      returns (hashed: Bytes)
      requires sink.open && sink.tmp in sink.store.files && sink.store.files[sink.tmp] == enc.absorbed && outerInput == enc.absorbed
      requires zenc.pending == [] && zenc.state == zenc.codec.After(before)
      requires enc.absorbed == enc.cipher.Apply(enc.cek, enc.nonce, 0, zenc.codec.Emitted(before))
      modifies zenc, enc, ct, sink.store`files
      ensures zenc.pending == [] && zenc.state == zenc.codec.After(Fed(before, chunk))
      ensures enc.absorbed == enc.cipher.Apply(enc.cek, enc.nonce, 0, zenc.codec.Emitted(Fed(before, chunk)))
      ensures hashed == enc.absorbed && sink.store.files == old(sink.store.files)[sink.tmp := enc.absorbed]
    {
      var compressed := Compress(zenc, chunk, before);
      hashed := Pump(enc, compressed, ct, sink, outerInput, zenc.codec.Emitted(before));
    }

    /** The end of the body: the rest of the frame, then the tag. */
    method Footer(zenc: Encoder<S>, enc: StreamEncryptor, ct: ByteBuffer, sink: FsBlobSink, outerInput: Bytes, ghost writes: seq<Bytes>)
      returns (hashed: Bytes)
      requires sink.open && sink.tmp in sink.store.files && sink.store.files[sink.tmp] == enc.absorbed && outerInput == enc.absorbed
      requires zenc.pending == [] && zenc.state == zenc.codec.After(writes)
      requires enc.absorbed == enc.cipher.Apply(enc.cek, enc.nonce, 0, zenc.codec.Emitted(writes))
      modifies enc, ct, sink.store`files
      ensures hashed == SealedFrame(enc.cipher, enc.cek, enc.nonce, zenc.codec.Frame(writes))
      ensures sink.store.files == old(sink.store.files)[sink.tmp := hashed]
    {
      var tail := zenc.Finish();
      assert tail == zenc.codec.finish(zenc.state);
      hashed := Pump(enc, tail, ct, sink, outerInput, zenc.codec.Emitted(writes));
      var tag := enc.Finish();
      hashed := hashed + tag;
      sink.WriteAll(tag);
    }

    /** The chunk loop: hash, count, compress, encrypt, hash and write, until the end or a broken chunk. */
    method StreamChunks(body: seq<Chunk>, zenc: Encoder<S>, enc: StreamEncryptor, ct: ByteBuffer, sink: FsBlobSink)
      returns (ok: bool, innerInput: Bytes, outerInput: Bytes, size: nat)
      requires sink.store == blobs && sink.open && sink.tmp in blobs.files && blobs.files[sink.tmp] == []
      requires enc.cipher == cipher && enc.absorbed == []
      requires zenc.codec == codec && zenc.pending == [] && zenc.state == codec.start
      modifies zenc, enc, ct, blobs`files
      ensures ok <==> Intact(body)
      ensures ok ==> innerInput == Plain(body) && size == |Plain(body)|
      ensures ok ==> zenc.pending == [] && zenc.state == codec.After(Writes(body))
      ensures ok ==> enc.absorbed == cipher.Apply(enc.cek, enc.nonce, 0, codec.Emitted(Writes(body)))
      ensures outerInput == enc.absorbed && blobs.files == old(blobs.files)[sink.tmp := outerInput]
    {
      innerInput, outerInput, size := [], [], 0;
      ghost var writes: seq<Bytes> := [];
      for i := 0 to |body|
        invariant Intact(body[..i]) && writes == Writes(body[..i])
        invariant innerInput == Plain(body[..i]) && size == |innerInput|
        invariant zenc.pending == [] && zenc.state == codec.After(writes)
        invariant enc.absorbed == cipher.Apply(enc.cek, enc.nonce, 0, codec.Emitted(writes))
        invariant outerInput == enc.absorbed && blobs.files == old(blobs.files)[sink.tmp := outerInput]
      {
        if body[i].Aborted? {
          return false, innerInput, outerInput, size;
        }
        var chunk := body[i].bytes;
        BodyGrows(body, i);
        innerInput := innerInput + chunk;
        size := size + |chunk|;
        outerInput := Round(chunk, zenc, enc, ct, sink, outerInput, writes);
        writes := Fed(writes, chunk);
      }
      assert body[..|body|] == body;
      ok := true;
    }

    /** Stream the body into a temp. On success the temp holds the sealed body. */
    method StreamBody(body: seq<Chunk>, enc: StreamEncryptor, sink: FsBlobSink) returns (ok: bool, innerInput: Bytes, outerInput: Bytes, size: nat)
      requires sink.store == blobs && sink.open && sink.tmp in blobs.files && blobs.files[sink.tmp] == []
      requires enc.cipher == cipher && enc.absorbed == []
      modifies enc, blobs`files
      ensures ok <==> Intact(body)
      ensures ok ==> innerInput == Plain(body) && size == |Plain(body)|
      ensures ok ==> outerInput == Sealed(cipher, codec, enc.cek, enc.nonce, body)
      ensures blobs.files == old(blobs.files)[sink.tmp := outerInput]
    {
      var zenc := new Encoder(codec);
      var ct := new ByteBuffer();
      ok, innerInput, outerInput, size := StreamChunks(body, zenc, enc, ct, sink);
      if ok {
        outerInput := Footer(zenc, enc, ct, sink, outerInput, Writes(body));
      }
    }

    /**
     Publish a body under a fresh key and nonce. A broken upload and a plaintext already indexed
     leave every blob and entry as they were; otherwise the blob is in place before its entry.
     */
    method PublishStream(body: seq<Chunk>, cek: Bytes, nonce: Bytes) returns (r: Result<ArtifactRef, PublishError>)
      modifies this`index, blobs
      ensures blobs.tempSeq == old(blobs.tempSeq) + 1
      ensures (index, blobs.files, r) == Published(this.sha, cipher, codec, old(index), old(blobs.files), TempName(blobs.pid, old(blobs.tempSeq)), body, cek, nonce)
    {
      var enc := new StreamEncryptor(cipher, cek, nonce);
      var sink := blobs.Begin();
      var ok, innerInput, outerInput, size := StreamBody(body, enc, sink);
      assert blobs.files == old(blobs.files)[sink.tmp := outerInput];
      assert blobs.files - {sink.tmp} == old(blobs.files) - {sink.tmp};
      if !ok {
        sink.Drop();
        return Err(UploadAborted);
      }
      var inner, outer := sha(innerInput), sha(outerInput);
      if inner in index {
        sink.Drop();
        return Ok(RefOf(index[inner]));
      }
      TempIsNoBlob(blobs.pid, old(blobs.tempSeq), outer);
      SettledTemp(old(blobs.files), sink.tmp, outerInput, outer);
      CommitAndIndex(sink, ArtifactEntry(inner, outer, cek, nonce, size));
      return Ok(ArtifactRef(inner, outer, size));
    }

    /** The blob goes in place first, then its entry. */
    method CommitAndIndex(sink: FsBlobSink, entry: ArtifactEntry)
      requires sink.store == blobs && sink.tmp in blobs.files && sink.tmp != BlobName(entry.outer)
      modifies sink, this`index, blobs`files
      ensures blobs.files == Settled(old(blobs.files), sink.tmp, entry.outer)
      ensures index == if entry.inner in old(index) then old(index) else old(index)[entry.inner := entry]
    {
      sink.Commit(entry.outer);
      Put(entry);
      sink.Drop();
    }

    /** `GET /blobs/{outer}`: the address must parse, and the blob be there. */
    method GetBlob(outer: string) returns (r: Result<Bytes, FetchError>)
      ensures r == match Parse(outer)
                   case Err(_) => Err(BadHash)
                   case Ok(h) => if BlobName(h) in blobs.files then Ok(blobs.files[BlobName(h)]) else Err(NotFound)
    {
      var h := Parse(outer);
      if h.Err? {
        return Err(BadHash);
      }
      var found := blobs.Open(h.value);
      return if found.Some? then Ok(found.value) else Err(NotFound);
    }

    /** First writer wins. */
    method Put(entry: ArtifactEntry)
      modifies this`index
      ensures index == if entry.inner in old(index) then old(index) else old(index)[entry.inner := entry]
    {
      if entry.inner !in index {
        index := index[entry.inner := entry];
      }
    }
  }

  lemma {:induction false} SettledTemp(files: Files, tmp: string, blob: Bytes, outer: ContentHash)
    requires tmp != BlobName(outer)
    ensures Settled(files[tmp := blob], tmp, outer) == Placed(files - {tmp}, outer, blob)
  {
    assert files[tmp := blob] - {tmp} == files - {tmp};
  }

  /** One more chunk moves the codec by one write, or not at all. */
  lemma {:induction false} FedGrows<S>(codec: Codec<S>, before: seq<Bytes>, chunk: Bytes)
    ensures var after := Fed(before, chunk);
            if chunk == [] then codec.After(after) == codec.After(before) && codec.Emitted(after) == codec.Emitted(before) + []
            else && codec.After(after) == codec.write(codec.After(before), chunk).0
                 && codec.Emitted(after) == codec.Emitted(before) + codec.write(codec.After(before), chunk).1
  {
    assert (before + [chunk])[..|before|] == before;
  }

  /** One more intact chunk. */
  lemma {:induction false} BodyGrows(body: seq<Chunk>, i: nat)
    requires i < |body| && Intact(body[..i]) && body[i].Data?
    ensures Intact(body[..i + 1])
    ensures Plain(body[..i + 1]) == Plain(body[..i]) + body[i].bytes
    ensures Writes(body[..i + 1]) == Fed(Writes(body[..i]), body[i].bytes)
  {
    var longer := body[..i + 1];
    assert longer[..i] == body[..i] && longer[i] == body[i];
    forall k | 0 <= k <= i ensures longer[k].Data? {
      assert k < i ==> longer[k] == body[..i][k];
    }
  }

  /** A blob already there stays as it is. */
  function Placed(files: Files, outer: ContentHash, blob: Bytes): Files
  {
    if BlobName(outer) in files then files else files[BlobName(outer) := blob]
  }

  /** Index, files and answer after one publish. */
  function Published<S>(sha: ByteSha, cipher: Cipher, codec: Codec<S>, index: Index, files: Files, tmp: string,
                        body: seq<Chunk>, cek: Bytes, nonce: Bytes): (Index, Files, Result<ArtifactRef, PublishError>)
  {
    var rest := files - {tmp};
    if !Intact(body) then (index, rest, Err(UploadAborted))
    else
      var inner := sha(Plain(body));
      if inner in index then (index, rest, Ok(RefOf(index[inner])))
      else
        var blob := Sealed(cipher, codec, cek, nonce, body);
        var entry := ArtifactEntry(inner, sha(blob), cek, nonce, |Plain(body)|);
        (index[inner := entry],
         Placed(rest, sha(blob), blob),
         Ok(RefOf(entry)))
  }

  /** The entry of a fresh upload: its own hash, size, key and nonce, and the address its blob is filed under. */
  ghost predicate FreshEntry<S>(sha: ByteSha, cipher: Cipher, codec: Codec<S>, e: ArtifactEntry, body: seq<Chunk>, cek: Bytes, nonce: Bytes)
    requires Intact(body)
  {
    && e.inner == sha(Plain(body)) && e.size == |Plain(body)|
    && e.cek == cek && e.nonce == nonce
    && e.outer == sha(Sealed(cipher, codec, cek, nonce, body))
  }

  /** The temp is gone, the blob is there, and every other file is as it was; a blob that was there already too. */
  ghost predicate Filed(files: Files, later: Files, tmp: string, outer: ContentHash, blob: Bytes)
  {
    && later.Keys == files.Keys - {tmp} + {BlobName(outer)}
    && (forall name :: name in files && name != tmp ==> name in later && later[name] == files[name])
    && (BlobName(outer) !in files ==> BlobName(outer) in later && later[BlobName(outer)] == blob)
  }

  /** Each entry is filed under its own plaintext's hash. */
  ghost predicate OwnNames(index: Index)
  {
    forall inner :: inner in index ==> index[inner].inner == inner
  }

  /** The answer and the tables after a publish: what the reference names, whose data the entry holds, and what is left alone. */
  lemma {:induction false} PublishedExact<S>(sha: ByteSha, cipher: Cipher, codec: Codec<S>, index: Index, files: Files, tmp: string,
                                             body: seq<Chunk>, cek: Bytes, nonce: Bytes)
    requires OwnNames(index) && forall h :: BlobName(h) != tmp
    ensures var (later, laterFiles, r) := Published(sha, cipher, codec, index, files, tmp, body, cek, nonce);
            && OwnNames(later)
            && (r.Err? <==> !Intact(body))
            && (r.Err? ==> later == index && laterFiles == files - {tmp})
            && (r.Ok? ==>
                  && r.value.inner == sha(Plain(body)) && r.value.inner in later
                  && r.value.outer == later[r.value.inner].outer && r.value.size == later[r.value.inner].size
                  && (r.value.inner in index ==> later == index && laterFiles == files - {tmp})
                  && (r.value.inner !in index ==>
                        && later == index[r.value.inner := later[r.value.inner]]
                        && FreshEntry(sha, cipher, codec, later[r.value.inner], body, cek, nonce)
                        && Filed(files, laterFiles, tmp, r.value.outer, Sealed(cipher, codec, cek, nonce, body))))
  {
  }
}
