/** Images that push loses: an index whose child is not on disk, and an index that lists itself. */
module PushLimits {
  import opened Text
  import opened ManifestGraph
  import opened ImageDocs
  import opened ImageMirror
  import opened ImagePush
  import opened Agreement

  /** An index document that lists one child. */
  function IndexOf(child: string): Body { Parsed("", [Descriptor(child, 1)], Descriptor("", 0), []) }

  lemma ReadIndex(child: string)
    requires child != "" && TrimSpace(child) == child
    ensures AsSet(ChildDigests(IndexOf(child))) == {child} && BlobDigests(IndexOf(child)) == []
    ensures Trimmed(IndexOf(child)) && SingleRole(Index, IndexOf(child))
  {
    TrimNoSpace("");
    hide TrimSpace;
    assert [IndexOf(child).config] + IndexOf(child).layers == [Descriptor("", 0)];
    assert [Descriptor("", 0)][..0] == [];
    assert TrimmedDigests([Descriptor("", 0)]) == [];
  }

  // ---------------------------------------------------------------- a child that is not on disk

  lemma LoadOne(f: ManifestFile)
    ensures LoadManifests([f]) == map[FileDigest(f) := LoadManifest(f)]
  {
    hide FileDigest, LoadManifest;
    assert [f][..0] == [];
  }

  lemma FileOf(algo: string, hex: string, body: Body)
    ensures FileDigest(ManifestFile(algo, hex + ".json", body)) == algo + ":" + hex
  {
    TrimJson(hex);
    hide TrimSuffix;
  }

  /** The manifest of such an index, as loaded. */
  lemma IndexLoaded(algo: string, hex: string, child: string)
    requires child != "" && TrimSpace(child) == child
    ensures var m := LoadManifest(ManifestFile(algo, hex + ".json", IndexOf(child)));
            AsSet(m.children) == {child} && m.blobs == []
  {
    ReadIndex(child);
    hide ChildDigests, BlobDigests, TrimSpace, FileDigest, MediaType;
  }

  /** A directory with one manifest, whose child is another one. */
  lemma OneSource(ref: ImageReference, ms: Manifests, d: string, child: string)
    requires ms.Keys == {d} && AsSet(ms[d].children) == {child} && ms[d].blobs == [] && child != d
    ensures RootOf(ref, ms) == Some(d) && ReachableFrom(LocalGraph(ms), d) == {d} && BlobsOf(ms, {d}) == {}
  {
    var g := LocalGraph(ms);
    assert g[d] == AsSet(ms[d].children);
    assert Sources(g) == {d};
    ReachesItself(g, d);
  }

  lemma OnlyRoot(ref: ImageReference, ms: Manifests, paths: map<string, BlobFile>, b: Bundle, d: string)
    requires IsBundle(ref, ms, paths, b) && RootOf(ref, ms) == Some(d) && d in ms
    requires ReachableFrom(LocalGraph(ms), d) == {d} && BlobsOf(ms, {d}) == {}
    ensures b.manifests == ms && b.rootDigest == d && b.order == [d] && b.requiredBlobs == []
  {
    hide RootOf, ReachableFrom, BlobsOf;
    ListSize(b.order, {d});
    ListSize(b.requiredBlobs, {});
    assert b.order[0] in b.order;
  }

  lemma NamesOther(algo: string, hex: string, child: string)
    requires ValidAlgo(algo) && ValidHex(hex)
    requires SplitDigest(child).Some? && SplitDigest(child) != Some((algo, hex))
    ensures SplitDigest(algo + ":" + hex) == Some((algo, hex)) && child != algo + ":" + hex && child != ""
  {
    DigestRoundTrip(algo, hex);
    TrimNoSpace("");
    hide TrimSpace;
  }

  /** The child is missing from a bundle that holds nothing but its parent. */
  lemma ChildIsMissing(b: Bundle, d: string, child: string)
    requires b.order == [d] && b.requiredBlobs == [] && b.manifests.Keys == {d} && child in b.manifests[d].children
    requires child != d && SplitDigest(child).Some? && SplitDigest(child) != SplitDigest(d)
    ensures MissingChild(b)
  {
    hide SplitDigest;
    assert d in b.order && forall x | x in b.order || x in b.requiredBlobs :: x == d;
    assert !Addressed(b, child);
  }

  lemma Writable(b: Bundle, d: string)
    requires b.order == [d] && b.requiredBlobs == [] && SplitDigest(d).Some?
    ensures AllSplit(b.order) && AllSplit(b.requiredBlobs)
  {
    hide SplitDigest;
  }

  /** No bundle is refused for a blob it does not need. */
  lemma NeedsNoBlob(ref: ImageReference, ms: Manifests, paths: map<string, BlobFile>, d: string)
    requires RootOf(ref, ms) == Some(d) && ReachableFrom(LocalGraph(ms), d) == {d} && BlobsOf(ms, {d}) == {}
    ensures BlobsPresent(ms, paths, d)
  {
    hide RootOf, ReachableFrom, BlobsOf;
  }

  /**
   * An index whose child is not on disk is loaded and laid out without an error, and its layout has a dangling
   * descriptor. A child that is on disk in lower case and listed in upper case is not on disk.
   */
  method PushWithoutChild(ref: ImageReference, algo: string, hex: string, child: string)
    returns (b: Bundle, layout: Layout)
    requires ValidAlgo(algo) && ValidHex(hex) && TrimSpace(child) == child
    requires SplitDigest(child).Some? && SplitDigest(child) != Some((algo, hex))
    ensures b.rootDigest == layout.rootDigest == algo + ":" + hex && b.order == [algo + ":" + hex]
    ensures IsLayout(b, layout) && !ClosedLayout(b, layout)
  {
    hide *;
    var file := ManifestFile(algo, hex + ".json", IndexOf(child));
    var dir := ImageDir([file], []);
    ghost var d, ms := algo + ":" + hex, LoadManifests([file]);
    NamesOther(algo, hex, child);
    LoadOne(file);
    FileOf(algo, hex, IndexOf(child));
    IndexLoaded(algo, hex, child);
    OneSource(ref, ms, d, child);
    NeedsNoBlob(ref, ms, BlobPaths(dir.blobs), d);
    var loaded := LoadLocalImageBundle(ref, dir);
    b := loaded.value;
    OnlyRoot(ref, ms, BlobPaths(dir.blobs), b, d);
    Writable(b, d);
    var written := WriteOCILayout(b);
    layout := written.value;
    LayoutRoot(b, layout);
    ListsChild(ms, d, child);
    ChildIsMissing(b, d, child);
    LayoutClosure(ref, dir.manifests, BlobPaths(dir.blobs), b, layout);
  }

  lemma ListsChild(ms: Manifests, d: string, child: string)
    requires d in ms && AsSet(ms[d].children) == {child}
    ensures child in ms[d].children
  {
    assert child in AsSet(ms[d].children);
  }

  // ---------------------------------------------------------------- an index that lists itself

  /** Such an index, served under a tag and its digest. */
  function SelfListed(tag: string, d: string): Registry {
    var reply := Reply(d, Index, IndexOf(d), 1);
    map[tag := reply, d := reply]
  }

  lemma StaysAt(g: Graph, d: Digest, p: seq<Digest>)
    requires IsPath(g, p) && p[0] == d && forall k | k in g :: g[k] == {d}
    ensures p[|p| - 1] == d
  {
    if |p| > 1 {
      assert p[|p| - 1] in g[p[|p| - 2]];
    }
  }

  lemma OnlyReachesItself(g: Graph, d: Digest)
    requires d in g && forall k | k in g :: g[k] == {d}
    ensures ReachableFrom(g, d) == {d}
  {
    ReachesItself(g, d);
    forall v | v in ReachableFrom(g, d) ensures v == d {
      var p :| IsPath(g, p) && p[0] == d && p[|p| - 1] == v;
      StaysAt(g, d, p);
    }
  }

  lemma OneDigest(d: string)
    requires d != ""
    ensures Digests([Descriptor(d, 1)]) == {d}
  {}

  lemma SelfChildren(d: string)
    requires d != ""
    ensures Children(Reply(d, Index, IndexOf(d), 1)) == {d} && Blobs(Reply(d, Index, IndexOf(d), 1)) == {}
  {
    OneDigest(d);
    MirrorReads(Index, IndexOf(d));
    hide Digests, MirrorChildren, MirrorBlobs, BlobDescriptors;
  }

  lemma SelfFormed(d: string)
    requires d != "" && TrimSpace(d) == d
    ensures WellFormedReply(Reply(d, Index, IndexOf(d), 1))
  {
    ReadIndex(d);
    hide Trimmed, SingleRole;
  }

  lemma ReadSelf(d: string)
    requires Storable(d)
    ensures var reply := Reply(d, Index, IndexOf(d), 1);
            Children(reply) == {d} && Blobs(reply) == {} && WellFormedReply(reply)
    ensures ParseDigest(d).Success?
  {
    StorableParses(d);
    assert Canonical(d);
    hide *;
    CanonicalReadersAgree(d);
    SelfChildren(d);
    SelfFormed(d);
  }

  lemma ServesItself(tag: string, d: string)
    requires Storable(d)
    ensures var reg := SelfListed(tag, d);
            && Consistent(reg) && FetchManifest(reg, tag).Success? && Mirrorable(reg, d) && WellFormedImage(reg, d)
            && d in RegistryGraph(reg) && RegistryGraph(reg)[d] == {d} && reg[tag].digest == d
  {
    var reg, reply := SelfListed(tag, d), Reply(d, Index, IndexOf(d), 1);
    ReadSelf(d);
    hide ParseDigest, Storable, Children, Blobs, WellFormedReply, ReachableFrom;
    assert forall k | k in reg :: reg[k] == reply;
    OnlyReachesItself(RegistryGraph(reg), d);
    assert Reachable(reg, d) == {d};
    hide RegistryGraph, Reachable;
    assert forall x :: !IsBlobOf(reg, d, x);
  }

  /** Such an image is mirrored whole, and by its tag no root is found again. */
  lemma SelfListedLosesRoot(imageRoot: seq<string>, ref: ImageReference, d: string, plan: seq<Artifact>, dir: ImageDir)
    requires Storable(d) && !ref.isDigest
    requires IsPlan(SelfListed(ref.reference, d), imageRoot, d, plan)
    requires Stores(imageRoot, SelfListed(ref.reference, d), plan, dir)
    ensures RootOf(ref, LoadManifests(dir.manifests)) == None
  {
    hide *;
    var reg, ms := SelfListed(ref.reference, d), LoadManifests(dir.manifests);
    ServesItself(ref.reference, d);
    MirrorPushAgreement(reg, imageRoot, ref, d, plan, dir);
    LoadedGraph(reg, imageRoot, d, plan, dir);
    SelfParent(RegistryGraph(reg), ms, d);
  }

  lemma SelfParent(g: Graph, ms: Manifests, d: string)
    requires d in g && g[d] == {d} && LocalGraph(ms) == Reached(g, d)
    ensures HasParent(LocalGraph(ms), d)
  {
    ReachesItself(g, d);
    hide Reaches, LocalGraph;
    assert d in Reached(g, d) && d in Reached(g, d)[d];
  }

  /** The mirror plans such an image and stores it without an error. */
  method MirrorSelfListed(imageRoot: seq<string>, ref: ImageReference, d: string)
    returns (plan: seq<Artifact>, dir: ImageDir, loaded: Result<Bundle>)
    requires Storable(d) && !ref.isDigest
    ensures IsPlan(SelfListed(ref.reference, d), imageRoot, d, plan)
    ensures Stores(imageRoot, SelfListed(ref.reference, d), plan, dir)
    ensures loaded.Failure?
  {
    hide *;
    ServesItself(ref.reference, d);
    var reg := SelfListed(ref.reference, d);
    var planned := PlanImage(reg, imageRoot, ref.reference);
    plan := planned.value;
    StorePlanStores(reg, imageRoot, d, plan);
    dir := StorePlan(reg, plan);
    SelfListedLosesRoot(imageRoot, ref, d, plan, dir);
    loaded := LoadLocalImageBundle(ref, dir);
  }
}
