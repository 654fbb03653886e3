/** Image manifests as parsed documents, and the two readers of them: the mirror's and the push side's. */
module ImageDocs {
  import opened Text

  datatype Descriptor = Descriptor(digest: string, size: int)

  /** The fields both readers decode; an absent config is a descriptor with an empty digest. */
  datatype Body =
    | Malformed
    | Parsed(mediaType: string, manifests: seq<Descriptor>, config: Descriptor, layers: seq<Descriptor>)

  /** manifestKind: the three classes the mirror sorts content types into. */
  datatype Kind = Index | Image | Unknown

  const OCI_INDEX := "application/vnd.oci.image.index.v1+json"
  const OCI_MANIFEST := "application/vnd.oci.image.manifest.v1+json"
  const DOCKER_LIST := "application/vnd.docker.distribution.manifest.list.v2+json"
  const DOCKER_MANIFEST := "application/vnd.docker.distribution.manifest.v2+json"

  function BlobDescriptors(body: Body): seq<Descriptor>
    requires body.Parsed?
  {
    (if body.config.digest != "" then [body.config] else []) + body.layers
  }

  /** The mirror's reader: the kind of content decides whether children or blobs are read. */
  function ParseManifestDependencies(kind: Kind, body: Body): Result<(seq<Descriptor>, seq<Descriptor>)> {
    if body.Malformed? then Failure("malformed manifest")
    else match kind
      case Index => Success((body.manifests, []))
      case Image => Success(([], BlobDescriptors(body)))
      case Unknown =>
        if body.manifests != [] then Success((body.manifests, []))
        else if body.config.digest != "" || body.layers != [] then Success(([], BlobDescriptors(body)))
        else Failure("unrecognized manifest media type")
  }

  /** A document the mirror cannot read is kept, and followed no further. */
  function Dependencies(kind: Kind, body: Body): (seq<Descriptor>, seq<Descriptor>) {
    match ParseManifestDependencies(kind, body)
    case Success(deps) => deps
    case Failure(_) => ([], [])
  }

  function Digests(ds: seq<Descriptor>): set<string> {
    set d | d in ds && d.digest != "" :: d.digest
  }

  function MirrorChildren(kind: Kind, body: Body): set<string> { Digests(Dependencies(kind, body).0) }

  function MirrorBlobs(kind: Kind, body: Body): set<string> { Digests(Dependencies(kind, body).1) }

  // ---------------------------------------------------------------- the push side's reader

  /** uniqueStrings: trimmed, non-empty, first occurrences in order. */
  function UniqueStrings(items: seq<string>): (out: seq<string>)
    ensures forall i, j | 0 <= i < j < |out| :: out[i] != out[j]
    ensures forall v :: v in out <==> v != "" && exists i | 0 <= i < |items| :: TrimSpace(items[i]) == v
  {
    if items == [] then []
    else
      var n := |items| - 1;
      var init := UniqueStrings(items[..n]);
      var v := TrimSpace(items[n]);
      if v == "" || v in init then init else init + [v]
  }

  /** The trimmed non-empty digests of a list of descriptors, in order. */
  function TrimmedDigests(ds: seq<Descriptor>): (out: seq<string>)
    ensures forall v :: v in out <==> v != "" && exists i | 0 <= i < |ds| :: TrimSpace(ds[i].digest) == v
  {
    if ds == [] then []
    else
      var n := |ds| - 1;
      var v := TrimSpace(ds[n].digest);
      TrimmedDigests(ds[..n]) + if v == "" then [] else [v]
  }

  /** parseManifestDetails reads every reference in the document, whatever its media type says. */
  function ChildDigests(body: Body): seq<string> {
    if body.Malformed? then [] else UniqueStrings(TrimmedDigests(body.manifests))
  }

  function BlobDigests(body: Body): seq<string> {
    if body.Malformed? then [] else UniqueStrings(TrimmedDigests([body.config] + body.layers))
  }

  function MediaType(body: Body): string {
    if body.Malformed? then ""
    else if TrimSpace(body.mediaType) != "" then TrimSpace(body.mediaType)
    else if TrimmedDigests(body.manifests) != [] then OCI_INDEX
    else if TrimmedDigests([body.config] + body.layers) != [] then OCI_MANIFEST
    else ""
  }

  function PushChildren(body: Body): set<string> { set d | d in ChildDigests(body) }

  function PushBlobs(body: Body): set<string> { set d | d in BlobDigests(body) }

  // ---------------------------------------------------------------- when the two readers agree

  /** No digest in the document carries surrounding white space. */
  predicate Trimmed(body: Body) {
    body.Parsed? ==>
      && TrimSpace(body.config.digest) == body.config.digest
      && (forall d | d in body.manifests :: TrimSpace(d.digest) == d.digest)
      && (forall d | d in body.layers :: TrimSpace(d.digest) == d.digest)
  }

  /** The document lists references only of the sort its kind makes the mirror read. */
  predicate SingleRole(kind: Kind, body: Body) {
    body.Parsed? ==>
      match kind
      case Index => Digests(BlobDescriptors(body)) == {}
      case Image => Digests(body.manifests) == {}
      case Unknown => body.manifests == [] || Digests(BlobDescriptors(body)) == {}
  }

  /** A value is listed where it first occurs: what a prefix of the items gives comes first, whatever follows. */
  lemma {:induction false} UniqueInOrder(items: seq<string>, n: nat)
    requires n <= |items|
    ensures UniqueStrings(items[..n]) <= UniqueStrings(items)
  {
    if n < |items| {
      var init := items[..|items| - 1];
      UniqueInOrder(init, n);
      assert init[..n] == items[..n];
    } else {
      assert items[..n] == items;
    }
  }

  lemma {:induction false} TrimmedDigestsAreDigests(ds: seq<Descriptor>)
    requires forall d | d in ds :: TrimSpace(d.digest) == d.digest
    ensures (set v | v in TrimmedDigests(ds)) == Digests(ds)
  {
    forall v | v in TrimmedDigests(ds) ensures v in Digests(ds) {
      var i :| 0 <= i < |ds| && TrimSpace(ds[i].digest) == v;
      assert ds[i] in ds;
    }
    forall v | v in Digests(ds) ensures v in TrimmedDigests(ds) {
      var d :| d in ds && d.digest == v;
      var i :| 0 <= i < |ds| && ds[i] == d;
      assert TrimSpace(ds[i].digest) == v;
    }
  }

  lemma {:induction false} UniqueKeepsTrimmed(items: seq<string>)
    requires forall v | v in items :: v != "" && TrimSpace(v) == v
    ensures (set v | v in UniqueStrings(items)) == (set v | v in items)
  {
    forall v | v in items ensures v in UniqueStrings(items) {
      var i :| 0 <= i < |items| && items[i] == v;
      assert TrimSpace(items[i]) == v;
    }
  }

  lemma {:induction false} TrimmedDigestsAreTrimmed(ds: seq<Descriptor>)
    requires forall d | d in ds :: TrimSpace(d.digest) == d.digest
    ensures forall v | v in TrimmedDigests(ds) :: v != "" && TrimSpace(v) == v
  {
    forall v | v in TrimmedDigests(ds) ensures v != "" && TrimSpace(v) == v {
      var i :| 0 <= i < |ds| && TrimSpace(ds[i].digest) == v;
      assert ds[i] in ds;
    }
  }

  lemma PushReadsEverything(body: Body)
    requires body.Parsed? && Trimmed(body)
    ensures PushChildren(body) == Digests(body.manifests)
    ensures PushBlobs(body) == Digests([body.config] + body.layers) == Digests(BlobDescriptors(body))
  {
    var all := [body.config] + body.layers;
    TrimmedDigestsAreDigests(body.manifests);
    TrimmedDigestsAreTrimmed(body.manifests);
    UniqueKeepsTrimmed(TrimmedDigests(body.manifests));
    TrimmedDigestsAreDigests(all);
    TrimmedDigestsAreTrimmed(all);
    UniqueKeepsTrimmed(TrimmedDigests(all));
    assert Digests(all) == Digests(BlobDescriptors(body));
  }

  lemma MirrorReads(kind: Kind, body: Body)
    requires body.Parsed?
    ensures MirrorChildren(kind, body)
         == if kind.Image? then {} else Digests(body.manifests)
    ensures MirrorBlobs(kind, body)
         == if kind.Index? || (kind.Unknown? && body.manifests != []) then {}
            else Digests([body.config] + body.layers)
  {
    assert Digests([body.config] + body.layers) == Digests(BlobDescriptors(body));
    assert Digests([]) == {};
    match kind
    case Index =>
    case Image =>
    case Unknown =>
  }

  /** The mirror and the push side see the same children and the same blobs exactly in single-role documents. */
  lemma ReadersAgree(kind: Kind, body: Body)
    requires Trimmed(body)
    ensures (&& PushChildren(body) == MirrorChildren(kind, body)
             && PushBlobs(body) == MirrorBlobs(kind, body))
            <==> SingleRole(kind, body)
  {
    if body.Parsed? {
      PushReadsEverything(body);
      MirrorReads(kind, body);
      EmptyListHasNoDigests(body.manifests);
    } else {
      assert Digests([]) == {};
    }
  }

  lemma EmptyListHasNoDigests(ds: seq<Descriptor>)
    ensures ds == [] ==> Digests(ds) == {}
  {}

  /** A document with a child manifest and a layer is read differently by the two sides, whatever its media type. */
  lemma TwoRoles(kind: Kind, child: string, layer: string)
    requires child != "" && TrimSpace(child) == child && layer != "" && TrimSpace(layer) == layer
    ensures var body := Parsed("", [Descriptor(child, 1)], Descriptor("", 0), [Descriptor(layer, 1)]);
            && child in PushChildren(body) && layer in PushBlobs(body)
            && (if kind.Image? then child !in MirrorChildren(kind, body) else layer !in MirrorBlobs(kind, body))
  {
    var body := Parsed("", [Descriptor(child, 1)], Descriptor("", 0), [Descriptor(layer, 1)]);
    TrimNoSpace("");
    PushReadsEverything(body);
    MirrorReads(kind, body);
    hide TrimSpace, PushChildren, PushBlobs, MirrorChildren, MirrorBlobs;
    assert Descriptor(child, 1) in body.manifests;
    assert Descriptor(layer, 1) in BlobDescriptors(body);
  }
}
