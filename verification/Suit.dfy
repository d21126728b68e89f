/**
 The artifacts the signer produces, as values: a SUIT manifest (component id, image digest and
 payload uri per component, or a disable directive) and the L1 campaign that embeds one manifest
 per component under a `#`-prefixed key. CBOR and signatures are left abstract: `Encoded` is a
 byte string that either decodes to a value or does not.
 */
module Suit {
  import opened Collections
  import opened ContentHashes

  type Bytes = seq<bv8>

  /** One artifact's index entry: how to find and decrypt its blob. */
  datatype ArtifactEntry = ArtifactEntry(inner: ContentHash, outer: ContentHash, cek: Bytes, nonce: Bytes, size: nat)

  type Index = map<ContentHash, ArtifactEntry>

  datatype Recipient = Recipient(publicKey: string, kid: string)

  /** A content key wrapped to one device. */
  datatype KeyWrap = KeyWrap(cek: Bytes, iv: Bytes, recipient: Recipient)

  /** Only the device a key was wrapped for can open it, with its own key and under its own key id. */
  function Unwrap(device: Recipient, wrap: KeyWrap): Option<(Bytes, Bytes)>
  {
    if wrap.recipient.publicKey == device.publicKey && wrap.recipient.kid == device.kid then Some((wrap.cek, wrap.iv)) else None
  }

  datatype SuitComponent = SuitComponent(
    id: seq<string>,
    digest: Option<seq<Byte>>,
    size: nat,
    uri: Option<string>,
    wrap: Option<KeyWrap>)

  datatype Manifest = Manifest(sequence: nat, components: seq<SuitComponent>, disableTarget: Option<seq<string>>) {
    predicate HasFirmware()
    {
      exists c :: c in components && c.uri.Some?
    }
  }

  datatype Encoded<T> = Cbor(value: T) | Garbage

  datatype Campaign = Campaign(sequence: nat, integrated: map<string, Encoded<Manifest>>)

  datatype EnvelopePart = EnvelopePart(
    id: string,
    inner: ContentHash,
    size: nat,
    cek: Bytes,
    iv: Bytes,
    outer: Option<ContentHash>)

  function ComponentFor(component: string, p: EnvelopePart, recipient: Recipient): SuitComponent
  {
    SuitComponent(
      [component, p.id],
      Some(p.inner.bytes),
      p.size,
      Some(if p.outer.Some? then ToPrefixed(p.outer.value) else "#" + p.id),
      Some(KeyWrap(p.cek, p.iv, recipient)))
  }

  function ComponentsFor(component: string, parts: seq<EnvelopePart>, recipient: Recipient): (r: seq<SuitComponent>)
    ensures |r| == |parts|
    ensures forall i :: 0 <= i < |parts| ==> r[i] == ComponentFor(component, parts[i], recipient)
  {
    seq(|parts|, i requires 0 <= i < |parts| => ComponentFor(component, parts[i], recipient))
  }

  /** A manifest component that delivers one part to one device. */
  ghost predicate Delivers(c: SuitComponent, component: string, p: EnvelopePart, device: Recipient)
  {
    && c.id == [component, p.id]
    && c.digest == Some(p.inner.bytes)
    && c.size == p.size
    && (p.outer.Some? ==> c.uri == Some(ToPrefixed(p.outer.value)))
    && (p.outer.None? ==> c.uri == Some("#" + p.id))
    && c.wrap.Some? && Unwrap(device, c.wrap.value) == Some((p.cek, p.iv))
  }

  /** Fold a component's parts into one manifest, each content key wrapped to the device. */
  method BuildEnvelope(component: string, parts: seq<EnvelopePart>, recipient: Recipient, sequence: nat)
    returns (m: Manifest)
    ensures m == Manifest(sequence, ComponentsFor(component, parts, recipient), None)
    ensures m.sequence == sequence && m.disableTarget.None? && |m.components| == |parts|
    ensures forall i :: 0 <= i < |parts| ==> Delivers(m.components[i], component, parts[i], recipient)
  {
    m := Manifest(sequence, [], None);
    for i := 0 to |parts|
      invariant m == Manifest(sequence, ComponentsFor(component, parts, recipient)[..i], None)
    {
      var p := parts[i];
      var uri := if p.outer.Some? then ToPrefixed(p.outer.value) else "#" + p.id;
      m := m.(components := m.components + [
        SuitComponent([component, p.id], Some(p.inner.bytes), p.size, Some(uri), Some(KeyWrap(p.cek, p.iv, recipient)))]);
    }
  }

  /** A manifest that deactivates a component: no part segment, no payload. */
  function DisableManifest(component: string, sequence: nat): Manifest
  {
    Manifest(sequence, [SuitComponent([component], None, 0, None, None)], Some([component]))
  }

  function Key(component: string): string
  {
    "#" + component
  }

  ghost predicate DistinctNames<T>(named: seq<(string, T)>)
  {
    forall i, j :: 0 <= i < j < |named| ==> named[i].0 != named[j].0
  }

  /** Images under their keys; of several with one name, the last. */
  function Integrated(l2s: seq<(string, Manifest)>): map<string, Encoded<Manifest>>
  {
    if l2s == [] then map[]
    else
      var (name, l2) := l2s[|l2s| - 1];
      Integrated(l2s[..|l2s| - 1])[Key(name) := Cbor(l2)]
  }

  method BuildCampaign(l2s: seq<(string, Manifest)>, sequence: nat) returns (c: Campaign)
    ensures c == Campaign(sequence, Integrated(l2s))
  {
    c := Campaign(sequence, map[]);
    for n := 0 to |l2s|
      invariant c == Campaign(sequence, Integrated(l2s[..n]))
    {
      assert l2s[..n + 1][..n] == l2s[..n];
      c := c.(integrated := c.integrated[Key(l2s[n].0) := Cbor(l2s[n].1)]);
    }
    assert l2s[..|l2s|] == l2s;
  }

  lemma {:induction false} KeyInjective(a: string, b: string)
    requires Key(a) == Key(b)
    ensures a == b
  {
    assert Key(a)[1..] == a && Key(b)[1..] == b;
  }

  lemma {:induction false} IntegratedKeys(l2s: seq<(string, Manifest)>, k: string)
    ensures k in Integrated(l2s) <==> exists i :: 0 <= i < |l2s| && k == Key(l2s[i].0)
  {
    if l2s != [] {
      var n := |l2s| - 1;
      IntegratedKeys(l2s[..n], k);
      assert forall i :: 0 <= i < n ==> l2s[..n][i] == l2s[i];
      assert k == Key(l2s[n].0) ==> exists i :: 0 <= i < |l2s| && k == Key(l2s[i].0);
    }
  }

  /** Under a name sits the last image of that name, so with distinct names each image is found. */
  lemma {:induction false} IntegratedAt(l2s: seq<(string, Manifest)>, i: nat)
    requires i < |l2s| && forall j :: i < j < |l2s| ==> l2s[j].0 != l2s[i].0
    ensures Key(l2s[i].0) in Integrated(l2s) && Integrated(l2s)[Key(l2s[i].0)] == Cbor(l2s[i].1)
  {
    var n := |l2s| - 1;
    if i < n {
      var init := l2s[..n];
      assert forall j :: 0 <= j < n ==> init[j] == l2s[j];
      IntegratedAt(init, i);
      if Key(l2s[n].0) == Key(l2s[i].0) {
        KeyInjective(l2s[n].0, l2s[i].0);
      }
    }
  }
}
