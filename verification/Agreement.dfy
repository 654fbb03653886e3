/** Mirroring and pushing agree: what the worklist stores is what the loader finds, orders and lays out. */
module Agreement {
  import opened Text
  import opened ManifestGraph
  import opened ImageDocs
  import opened SafePaths
  import opened ImageMirror
  import opened ImagePush

  // ---------------------------------------------------------------- digests and file names

  /** A digest whose file name leads back to it: canonical, and with an algorithm that is a plain directory name. */
  predicate Storable(d: string) {
    Canonical(d) && ParseDigest(d).value.0 != "." && ParseDigest(d).value.0 != ".."
  }

  lemma StorablePath(imageRoot: seq<string>, d: string, size: int) returns (algo: string, hex: string)
    requires Storable(d)
    ensures d == algo + ":" + hex && SplitDigest(d) == Some((algo, hex)) && algo != "" && hex != ""
    ensures NewArtifact(imageRoot, true, d, size).Success?
         && NewArtifact(imageRoot, true, d, size).value.path == imageRoot + ["manifests", algo, hex + ".json"]
    ensures NewArtifact(imageRoot, false, d, size).Success?
         && NewArtifact(imageRoot, false, d, size).value.path == imageRoot + ["blobs", algo, hex]
  {
    var parts := ParseDigest(d).value;
    algo, hex := parts.0, parts.1;
    CanonicalReadersAgree(d);
    StorableNames(algo, hex);
    WalkNames(imageRoot, ["manifests", algo, hex + ".json"], false);
    WalkNames(imageRoot, ["blobs", algo, hex], false);
  }

  lemma StorableNames(algo: string, hex: string)
    requires ValidAlgo(algo) && ValidHex(hex) && algo != "." && algo != ".."
    ensures Names(["manifests", algo, hex + ".json"]) && Names(["blobs", algo, hex])
  {
    assert !AlgoChar('/') && !HexChar('/') && !HexChar('.');
    assert hex[0] in hex;
    var file := hex + ".json";
    assert file[0] == hex[0];
    assert |file| > 2;
  }

  lemma TrimJson(hex: string)
    ensures TrimSuffix(hex + ".json", ".json") == hex
  {}

  // ---------------------------------------------------------------- a stored plan

  ghost predicate ManifestAt(imageRoot: seq<string>, reg: Registry, a: Artifact, f: ManifestFile) {
    && a.isManifest && a.path == imageRoot + ["manifests", f.algo, f.name]
    && a.digest in reg && f.body == reg[a.digest].body
  }

  ghost predicate BlobAt(imageRoot: seq<string>, a: Artifact, f: BlobFile) {
    !a.isManifest && a.path == imageRoot + ["blobs", f.algo, f.hash]
  }

  /** A directory that was empty before every action of the plan was carried out, and holds nothing else. */
  ghost predicate Stores(imageRoot: seq<string>, reg: Registry, plan: seq<Artifact>, dir: ImageDir) {
    && (forall a | a in plan && a.isManifest :: exists f :: f in dir.manifests && ManifestAt(imageRoot, reg, a, f))
    && (forall f | f in dir.manifests :: exists a :: a in plan && ManifestAt(imageRoot, reg, a, f))
    && (forall a | a in plan && !a.isManifest :: exists f :: f in dir.blobs && BlobAt(imageRoot, a, f))
    && (forall f | f in dir.blobs :: exists a :: a in plan && BlobAt(imageRoot, a, f))
  }

  /** Every manifest the root leads to is written one way, lists one sort of reference, and names storable digests. */
  ghost predicate WellFormedImage(reg: Registry, root: Digest) {
    && (forall d | d in Reachable(reg, root) :: Storable(d) && WellFormedReply(reg[d]))
    && (forall b | IsBlobOf(reg, root, b) :: Storable(b))
  }

  predicate WellFormedReply(reply: Reply) { Trimmed(reply.body) && SingleRole(reply.kind, reply.body) }

  lemma WellFormedReaders(reply: Reply)
    requires WellFormedReply(reply)
    ensures PushChildren(reply.body) == Children(reply) && PushBlobs(reply.body) == Blobs(reply)
  {
    ReadersAgree(reply.kind, reply.body);
  }

  lemma {:induction false} InDigestsOf(plan: seq<Artifact>, isManifest: bool, d: string)
    ensures d in DigestsOf(plan, isManifest) <==> exists a :: a in plan && a.isManifest == isManifest && a.digest == d
  {
    if plan != [] {
      var n := |plan| - 1;
      InDigestsOf(plan[..n], isManifest, d);
      assert plan == plan[..n] + [plan[n]];
    }
  }

  lemma {:induction false} LoadManifestsMeaning(files: seq<ManifestFile>)
    ensures forall f | f in files :: FileDigest(f) in LoadManifests(files)
    ensures forall d | d in LoadManifests(files) ::
              exists f :: f in files && FileDigest(f) == d && LoadManifests(files)[d] == LoadManifest(f)
  {
    hide FileDigest;
    hide LoadManifest;
    if files != [] {
      var n := |files| - 1;
      LoadManifestsMeaning(files[..n]);
      assert files == files[..n] + [files[n]];
      forall d | d in LoadManifests(files)
        ensures exists f :: f in files && FileDigest(f) == d && LoadManifests(files)[d] == LoadManifest(f)
      {
        if d == FileDigest(files[n]) {
          assert files[n] in files;
        } else {
          var f :| f in files[..n] && FileDigest(f) == d && LoadManifests(files[..n])[d] == LoadManifest(f);
          assert f in files;
        }
      }
    }
  }

  lemma {:induction false} BlobPathsMeaning(files: seq<BlobFile>, algo: string, hash: string)
    requires algo != "" && hash != "" && BlobFile(algo, hash) in files
    ensures algo + ":" + hash in BlobPaths(files)
  {
    var n := |files| - 1;
    if files[n] != BlobFile(algo, hash) {
      assert files == files[..n] + [files[n]];
      BlobPathsMeaning(files[..n], algo, hash);
    }
  }

  /** A manifest file holds the manifest its name spells. */
  lemma StoredFileDigest(imageRoot: seq<string>, reg: Registry, a: Artifact, f: ManifestFile)
    requires ManifestAt(imageRoot, reg, a, f) && Storable(a.digest)
    requires NewArtifact(imageRoot, true, a.digest, a.size) == Success(a)
    ensures FileDigest(f) == a.digest
  {
    var algo, hex := StorablePath(imageRoot, a.digest, a.size);
    var n := |imageRoot|;
    assert a.path[n + 1] == algo == f.algo && a.path[n + 2] == hex + ".json" == f.name;
    TrimJson(hex);
  }

  lemma StoredBlobDigest(imageRoot: seq<string>, a: Artifact, f: BlobFile)
    requires BlobAt(imageRoot, a, f) && Storable(a.digest)
    requires NewArtifact(imageRoot, false, a.digest, a.size) == Success(a)
    ensures f.algo + ":" + f.hash == a.digest && f.algo != "" && f.hash != ""
  {
    var algo, hex := StorablePath(imageRoot, a.digest, a.size);
    var n := |imageRoot|;
    assert a.path[n + 1] == algo == f.algo && a.path[n + 2] == hex == f.hash;
  }

  // ---------------------------------------------------------------- the loader finds what the mirror saw

  /** The loaded manifests are exactly the reachable ones, each with the body the registry served. */
  lemma LoadedManifests(reg: Registry, imageRoot: seq<string>, root: Digest, plan: seq<Artifact>, dir: ImageDir)
    requires IsPlan(reg, imageRoot, root, plan) && WellFormedImage(reg, root) && Stores(imageRoot, reg, plan, dir)
    ensures LoadManifests(dir.manifests).Keys == Reachable(reg, root)
    ensures forall d | d in Reachable(reg, root) ::
              exists f: ManifestFile :: f.body == reg[d].body && LoadManifests(dir.manifests)[d] == LoadManifest(f)
  {
    hide Storable;
    hide NewArtifact;
    hide FileDigest;
    hide LoadManifest;
    hide LoadManifests;
    hide WellFormedReply;
    hide FetchManifest;
    var ms := LoadManifests(dir.manifests);
    LoadManifestsMeaning(dir.manifests);
    forall d | d in Reachable(reg, root) ensures d in ms {
      InDigestsOf(plan, true, d);
      var a :| a in plan && a.isManifest && a.digest == d;
      var f :| f in dir.manifests && ManifestAt(imageRoot, reg, a, f);
      StoredFileDigest(imageRoot, reg, a, f);
    }
    forall d | d in ms
      ensures d in Reachable(reg, root) && exists f: ManifestFile :: f.body == reg[d].body && ms[d] == LoadManifest(f)
    {
      var f :| f in dir.manifests && FileDigest(f) == d && ms[d] == LoadManifest(f);
      var a :| a in plan && ManifestAt(imageRoot, reg, a, f);
      InDigestsOf(plan, true, a.digest);
      StoredFileDigest(imageRoot, reg, a, f);
    }
  }

  /** The part of a graph that can be reached from one node. */
  ghost function Reached(g: Graph, root: Digest): Graph {
    map d | d in g && Reaches(g, root, d) :: g[d]
  }

  lemma ReachedIsRooted(g: Graph, root: Digest)
    requires root in g
    ensures root in Reached(g, root) && forall d | d in Reached(g, root) :: Reaches(Reached(g, root), root, d)
  {
    var h := Reached(g, root);
    ReachesItself(g, root);
    forall d | d in h ensures Reaches(h, root, d) {
      var p :| IsPath(g, p) && p[0] == root && p[|p| - 1] == d;
      forall i | 0 <= i < |p| ensures p[i] in h {
        assert IsPath(g, p[..i + 1]);
      }
      assert IsPath(h, p);
    }
  }

  lemma AcyclicReached(g: Graph, root: Digest)
    requires Acyclic(g)
    ensures Acyclic(Reached(g, root))
  {
    forall p | IsPath(Reached(g, root), p) && |p| > 1 ensures p[0] != p[|p| - 1] {
      assert IsPath(g, p);
    }
  }

  /** The graph the loader rebuilds is the reachable part of the graph the mirror walked. */
  lemma LoadedGraph(reg: Registry, imageRoot: seq<string>, root: Digest, plan: seq<Artifact>, dir: ImageDir)
    requires IsPlan(reg, imageRoot, root, plan) && WellFormedImage(reg, root) && Stores(imageRoot, reg, plan, dir)
    ensures var ms := LoadManifests(dir.manifests);
            && LocalGraph(ms) == Reached(RegistryGraph(reg), root)
            && forall d | d in ms :: d in reg && AsSet(ms[d].blobs) == Blobs(reg[d])
  {
    LoadedManifests(reg, imageRoot, root, plan, dir);
    var ms := LoadManifests(dir.manifests);
    forall d | d in ms
      ensures AsSet(ms[d].children) == Children(reg[d]) && AsSet(ms[d].blobs) == Blobs(reg[d])
    {
      hide LoadManifests;
      var f: ManifestFile :| f.body == reg[d].body && ms[d] == LoadManifest(f);
      WellFormedReaders(reg[d]);
    }
    SameGraph(RegistryGraph(reg), root, ms);
  }

  lemma SameGraph(g: Graph, root: Digest, ms: Manifests)
    requires ms.Keys == ReachableFrom(g, root)
    requires forall d | d in ms :: AsSet(ms[d].children) == g[d]
    ensures LocalGraph(ms) == Reached(g, root)
  {
    forall d | d in ms ensures LocalGraph(ms)[d] == g[d] {
      assert LocalGraph(ms)[d] == AsSet(ms[d].children);
    }
  }

  /** Every blob of a reachable manifest is found on disk. */
  lemma LoadedBlobs(reg: Registry, imageRoot: seq<string>, root: Digest, plan: seq<Artifact>, dir: ImageDir, b: string)
    requires IsPlan(reg, imageRoot, root, plan) && WellFormedImage(reg, root) && Stores(imageRoot, reg, plan, dir)
    requires IsBlobOf(reg, root, b)
    ensures b in BlobPaths(dir.blobs)
  {
    hide Storable;
    hide NewArtifact;
    InDigestsOf(plan, false, b);
    var a :| a in plan && !a.isManifest && a.digest == b;
    var f :| f in dir.blobs && BlobAt(imageRoot, a, f);
    StoredBlobDigest(imageRoot, a, f);
    BlobPathsMeaning(dir.blobs, f.algo, f.hash);
  }

  lemma LoadedIsRooted(g: Graph, root: Digest, ms: Manifests)
    requires root in g && LocalGraph(ms) == Reached(g, root)
    ensures ReachableFrom(LocalGraph(ms), root) == ms.Keys == ReachableFrom(g, root)
  {
    ReachedIsRooted(g, root);
    assert ms.Keys == LocalGraph(ms).Keys;
  }

  /** The blobs the loader requires are exactly the blobs the mirror planned. */
  lemma RequiredBlobsAgree(reg: Registry, root: Digest, ms: Manifests)
    requires ms.Keys == Reachable(reg, root)
    requires forall d | d in ms :: d in reg && AsSet(ms[d].blobs) == Blobs(reg[d])
    ensures forall b :: b in BlobsOf(ms, ms.Keys) <==> IsBlobOf(reg, root, b)
  {
    NoEmptyBlobs(reg, root);
    hide Reachable;
    hide Blobs;
    forall b | IsBlobOf(reg, root, b) ensures b in BlobsOf(ms, ms.Keys) {
      var u :| u in Reachable(reg, root) && b in Blobs(reg[u]);
      assert b in AsSet(ms[u].blobs);
    }
    forall b | b in BlobsOf(ms, ms.Keys) ensures IsBlobOf(reg, root, b) {
      var d :| d in ms && b in ms[d].blobs;
      assert b in AsSet(ms[d].blobs);
    }
  }

  lemma NoEmptyBlobs(reg: Registry, root: Digest)
    ensures forall u | u in reg :: "" !in Blobs(reg[u])
  {}

  // ---------------------------------------------------------------- the agreement theorem

  /** A digest reference is the root itself or no manifest of the image: written in upper case, say. */
  ghost predicate NamesNoOther(reg: Registry, ref: ImageReference, root: Digest) {
    ref.isDigest && ref.reference in Reachable(reg, root) ==> ref.reference == root
  }

  /** When the registry answers by content, a reference never names another manifest of the image it answers with. */
  lemma ReferenceNamesRoot(reg: Registry, ref: ImageReference)
    requires Consistent(reg) && ref.reference in reg
    ensures NamesNoOther(reg, ref, reg[ref.reference].digest)
  {
    var root := reg[ref.reference].digest;
    var named := set d | d in reg && reg[d].digest == d;
    if ref.reference in Reachable(reg, root) {
      hide Children, Reaches;
      ClosedSetHoldsReachable(RegistryGraph(reg), named, root, ref.reference);
    }
  }

  /**
   * After a complete mirror into an empty directory, the loader finds the manifests and blobs the mirror planned. A
   * digest reference that names one of the manifests on disk is the root chosen; with any other reference the mirrored
   * root is chosen if nothing in the image lists it, and otherwise none is.
   */
  lemma MirrorPushAgreement(reg: Registry, imageRoot: seq<string>, ref: ImageReference, root: Digest,
                            plan: seq<Artifact>, dir: ImageDir)
    requires root in RegistryGraph(reg)
    requires IsPlan(reg, imageRoot, root, plan) && WellFormedImage(reg, root) && Stores(imageRoot, reg, plan, dir)
    ensures var ms := LoadManifests(dir.manifests);
            && ms.Keys == Reachable(reg, root) == ReachableFrom(LocalGraph(ms), root)
            && (forall b :: b in BlobsOf(ms, ms.Keys) <==> IsBlobOf(reg, root, b))
            && BlobsPresent(ms, BlobPaths(dir.blobs), root)
            && RootOf(ref, ms) == if ref.isDigest && ref.reference in Reachable(reg, root) then Some(ref.reference)
                                  else if !HasParent(LocalGraph(ms), root) then Some(root) else None
  {
    var ms := LoadManifests(dir.manifests);
    LoadedGraph(reg, imageRoot, root, plan, dir);
    LoadedIsRooted(RegistryGraph(reg), root, ms);
    RequiredBlobsAgree(reg, root, ms);
    forall b | b in BlobsOf(ms, ms.Keys) ensures b in BlobPaths(dir.blobs) {
      LoadedBlobs(reg, imageRoot, root, plan, dir, b);
    }
    RootRecovered(RegistryGraph(reg), ref, root, ms);
  }

  lemma RootRecovered(g: Graph, ref: ImageReference, root: Digest, ms: Manifests)
    requires root in g && LocalGraph(ms) == Reached(g, root)
    ensures root in ms
    ensures RootOf(ref, ms) == if ref.isDigest && ref.reference in ms then Some(ref.reference)
                               else if !HasParent(LocalGraph(ms), root) then Some(root) else None
  {
    ReachedIsRooted(g, root);
    RootedSources(LocalGraph(ms), root);
    assert root in LocalGraph(ms);
    if !(ref.isDigest && ref.reference in ms) {
      if HasParent(LocalGraph(ms), root) {
        assert IndexSources(ms) == {};
      } else {
        assert Only(Sources(LocalGraph(ms))) in {root};
      }
    }
  }

  /** Content addressing rules out cycles, and then every complete mirror is pushed from its own root. */
  lemma AcyclicMirrorPushes(reg: Registry, imageRoot: seq<string>, ref: ImageReference, root: Digest,
                            plan: seq<Artifact>, dir: ImageDir)
    requires root in RegistryGraph(reg) && NamesNoOther(reg, ref, root)
    requires IsPlan(reg, imageRoot, root, plan) && WellFormedImage(reg, root) && Stores(imageRoot, reg, plan, dir)
    requires Acyclic(RegistryGraph(reg))
    ensures RootOf(ref, LoadManifests(dir.manifests)) == Some(root)
  {
    var ms := LoadManifests(dir.manifests);
    MirrorPushAgreement(reg, imageRoot, ref, root, plan, dir);
    LoadedGraph(reg, imageRoot, root, plan, dir);
    RootNotListed(RegistryGraph(reg), root, ms);
  }

  lemma RootNotListed(g: Graph, root: Digest, ms: Manifests)
    requires root in g && Acyclic(g) && LocalGraph(ms) == Reached(g, root)
    ensures !HasParent(LocalGraph(ms), root)
  {
    ReachedIsRooted(g, root);
    AcyclicReached(g, root);
    AcyclicRootHasNoParent(LocalGraph(ms), root);
  }

  // ---------------------------------------------------------------- closure of the layout

  ghost predicate AddressedIn(layout: Layout, d: string) {
    SplitDigest(d).Some? && SplitDigest(d).value in layout.blobs
  }

  /** Every descriptor of every manifest in the layout resolves inside the layout, and so does the root. */
  ghost predicate ClosedLayout(b: Bundle, layout: Layout) {
    && AddressedIn(layout, b.rootDigest)
    && (forall d, c | d in b.order && d in b.manifests && c in b.manifests[d].children :: AddressedIn(layout, c))
    && (forall d, x | d in b.order && d in b.manifests && x in b.manifests[d].blobs :: AddressedIn(layout, x))
  }

  /** Some digest the layout writes has this digest's address: they are equal but for white space around the parts. */
  ghost predicate Addressed(b: Bundle, c: string) {
    SplitDigest(c).Some? && exists x :: (x in b.order || x in b.requiredBlobs) && SplitDigest(x) == SplitDigest(c)
  }

  /** A manifest in the order lists a child that is neither on disk nor among the blobs, however it is spaced. */
  ghost predicate MissingChild(b: Bundle) {
    exists d, c :: d in b.order && d in b.manifests && c in b.manifests[d].children
                   && c !in b.manifests && c !in b.requiredBlobs && !Addressed(b, c)
  }

  /** All digests on disk or referenced from disk are canonical. */
  ghost predicate CanonicalBundle(b: Bundle) {
    forall d | d in b.manifests ::
      && Canonical(d)
      && (forall c | c in b.manifests[d].children :: Canonical(c))
      && (forall x | x in b.manifests[d].blobs :: Canonical(x))
  }

  lemma CanonicalAddressInjective(c: string, d: string)
    requires Canonical(c) && Canonical(d)
    ensures SplitDigest(c).Some? && SplitDigest(d).Some?
    ensures SplitDigest(c) == SplitDigest(d) ==> c == d
  {
    CanonicalReadersAgree(c);
    CanonicalReadersAgree(d);
  }

  lemma AddressedMeaning(b: Bundle, layout: Layout, c: string)
    requires IsLayout(b, layout)
    ensures AddressedIn(layout, c) <==> Addressed(b, c)
  {
    hide SplitDigest, HoldsManifest, HoldsBlob;
  }

  lemma WrittenIsAddressed(b: Bundle, x: string)
    requires AllSplit(b.order) && AllSplit(b.requiredBlobs) && (x in b.order || x in b.requiredBlobs)
    ensures Addressed(b, x)
  {
    hide SplitDigest;
  }

  /** The order and blob list of a bundle, as far as closure needs them. */
  ghost predicate ListsClosed(b: Bundle) {
    && b.rootDigest in b.order
    && (forall d | d in b.order :: d in b.manifests)
    && (forall d, c | d in b.order && d in b.manifests && c in b.manifests[d].children && c in b.manifests ::
          c in b.order)
    && (forall d, x | d in b.order && d in b.manifests && x in b.manifests[d].blobs :: x in b.requiredBlobs)
    && (forall x | x in b.requiredBlobs :: exists d :: d in b.manifests && x in b.manifests[d].blobs)
  }

  lemma BundleLists(ref: ImageReference, ms: Manifests, paths: map<string, BlobFile>, b: Bundle)
    requires IsBundle(ref, ms, paths, b)
    requires forall d, x | d in ms && x in ms[d].blobs :: x != ""
    ensures ListsClosed(b) && b.manifests == ms
  {
    var g, root := LocalGraph(ms), b.rootDigest;
    ReachesItself(g, root);
    forall d, c | d in b.order && d in ms && c in ms[d].children && c in ms ensures c in b.order {
      assert c in g[d];
      ReachesThenEdge(g, root, d, c);
    }
  }

  lemma CanonicalLists(b: Bundle)
    requires ListsClosed(b) && CanonicalBundle(b)
    ensures (forall d | d in b.order :: Canonical(d)) && (forall x | x in b.requiredBlobs :: Canonical(x))
  {
    hide Canonical;
  }

  lemma AddressedReferences(b: Bundle, layout: Layout)
    requires ListsClosed(b) && IsLayout(b, layout) && AllSplit(b.order) && AllSplit(b.requiredBlobs)
    ensures ClosedLayout(b, layout) <==> !MissingChild(b)
  {
    hide AddressedIn, Addressed, IsLayout, AllSplit;
    forall c ensures AddressedIn(layout, c) <==> Addressed(b, c) { AddressedMeaning(b, layout, c); }
    forall x | x in b.order || x in b.requiredBlobs ensures Addressed(b, x) { WrittenIsAddressed(b, x); }
  }

  /**
   * The layout of a bundle loaded from any directory is closed under its descriptors exactly when no child manifest is
   * missing from disk.
   */
  lemma {:induction false} LayoutClosure(ref: ImageReference, files: seq<ManifestFile>, paths: map<string, BlobFile>,
                                         b: Bundle, layout: Layout)
    requires IsBundle(ref, LoadManifests(files), paths, b) && IsLayout(b, layout)
    requires AllSplit(b.order) && AllSplit(b.requiredBlobs)
    ensures ClosedLayout(b, layout) <==> !MissingChild(b)
  {
    hide *;
    LoadedNonEmpty(files);
    BundleLists(ref, LoadManifests(files), paths, b);
    AddressedReferences(b, layout);
  }

  lemma {:induction false} LoadedNonEmpty(files: seq<ManifestFile>)
    ensures forall d, x | d in LoadManifests(files) && x in LoadManifests(files)[d].blobs :: x != ""
  {
    LoadManifestsMeaning(files);
    hide LoadManifests, FileDigest;
    forall d, x | d in LoadManifests(files) && x in LoadManifests(files)[d].blobs ensures x != "" {
      var f :| f in files && FileDigest(f) == d && LoadManifests(files)[d] == LoadManifest(f);
    }
  }

  lemma SameManifests(ref: ImageReference, ms: Manifests, paths: map<string, BlobFile>, b: Bundle)
    requires IsBundle(ref, ms, paths, b)
    ensures b.manifests == ms
  {}

  lemma CanonicalNonEmpty(b: Bundle)
    requires CanonicalBundle(b)
    ensures forall d, x | d in b.manifests && x in b.manifests[d].blobs :: x != ""
  {
    forall d, x | d in b.manifests && x in b.manifests[d].blobs ensures x != "" {
      CanonicalReadersAgree(x);
    }
  }

  // ---------------------------------------------------------------- end to end

  /** The file a manifest action leaves behind: the last two names of its path, holding what the registry serves. */
  function StoredManifest(reg: Registry, a: Artifact): ManifestFile
    requires a.digest in reg && |a.path| >= 2
  {
    ManifestFile(a.path[|a.path| - 2], a.path[|a.path| - 1], reg[a.digest].body)
  }

  function StoredBlob(a: Artifact): BlobFile
    requires |a.path| >= 2
  {
    BlobFile(a.path[|a.path| - 2], a.path[|a.path| - 1])
  }

  /** Carrying out every action of a plan in an empty directory. */
  function StorePlan(reg: Registry, plan: seq<Artifact>): ImageDir
    requires forall a | a in plan :: |a.path| >= 2 && (a.isManifest ==> a.digest in reg)
  {
    if plan == [] then ImageDir([], [])
    else
      var n := |plan| - 1;
      var init, a := StorePlan(reg, plan[..n]), plan[n];
      if a.isManifest then init.(manifests := init.manifests + [StoredManifest(reg, a)])
      else init.(blobs := init.blobs + [StoredBlob(a)])
  }

  lemma {:induction false} StorePlanFiles(reg: Registry, plan: seq<Artifact>)
    requires forall a | a in plan :: |a.path| >= 2 && (a.isManifest ==> a.digest in reg)
    ensures forall f :: f in StorePlan(reg, plan).manifests <==>
              exists a :: a in plan && a.isManifest && f == StoredManifest(reg, a)
    ensures forall f :: f in StorePlan(reg, plan).blobs <==>
              exists a :: a in plan && !a.isManifest && f == StoredBlob(a)
  {
    if plan != [] {
      var n := |plan| - 1;
      StorePlanFiles(reg, plan[..n]);
      assert plan == plan[..n] + [plan[n]];
    }
  }

  lemma PlannedDigests(reg: Registry, imageRoot: seq<string>, root: Digest, plan: seq<Artifact>, a: Artifact)
    requires IsPlan(reg, imageRoot, root, plan) && WellFormedImage(reg, root) && a in plan
    ensures Storable(a.digest) && NewArtifact(imageRoot, a.isManifest, a.digest, a.size) == Success(a)
    ensures a.isManifest ==> a.digest in reg
  {
    hide Storable;
    hide NewArtifact;
    InDigestsOf(plan, a.isManifest, a.digest);
  }

  lemma PlannedPath(reg: Registry, imageRoot: seq<string>, root: Digest, plan: seq<Artifact>, a: Artifact)
    requires IsPlan(reg, imageRoot, root, plan) && WellFormedImage(reg, root) && a in plan
    ensures |a.path| >= 2
    ensures a.isManifest ==> a.digest in reg && ManifestAt(imageRoot, reg, a, StoredManifest(reg, a))
    ensures !a.isManifest ==> BlobAt(imageRoot, a, StoredBlob(a))
  {
    PlannedDigests(reg, imageRoot, root, plan, a);
    var algo, hex := StorablePath(imageRoot, a.digest, a.size);
  }

  /** The stored plan is a complete mirror. */
  lemma {:induction false} StorePlanStores(reg: Registry, imageRoot: seq<string>, root: Digest, plan: seq<Artifact>)
    requires IsPlan(reg, imageRoot, root, plan) && WellFormedImage(reg, root)
    ensures forall a | a in plan :: |a.path| >= 2 && (a.isManifest ==> a.digest in reg)
    ensures Stores(imageRoot, reg, plan, StorePlan(reg, plan))
  {
    hide IsPlan;
    hide WellFormedImage;
    forall a | a in plan
      ensures |a.path| >= 2
      ensures a.isManifest ==> a.digest in reg && ManifestAt(imageRoot, reg, a, StoredManifest(reg, a))
      ensures !a.isManifest ==> BlobAt(imageRoot, a, StoredBlob(a))
    {
      PlannedPath(reg, imageRoot, root, plan, a);
    }
    StorePlanFiles(reg, plan);
  }

  /** What an image must be for a mirror followed by a push to carry it over whole. */
  ghost predicate Transferable(reg: Registry, ref: ImageReference) {
    && Consistent(reg) && FetchManifest(reg, ref.reference).Success?
    && var root := reg[ref.reference].digest;
       && Mirrorable(reg, root) && WellFormedImage(reg, root) && Acyclic(RegistryGraph(reg))
  }

  /** A one-manifest image with one blob, served under a tag and under its digest. */
  function OneImage(tag: string, d: string, b: string): Registry {
    var reply := Reply(d, Image, Parsed("", [], Descriptor(b, 1), []), 1);
    map[tag := reply, d := reply]
  }

  /**
   * Such an image is transferable by its tag or its digest, however that is written, whatever storable digests it has.
   */
  lemma OneImageIsTransferable(ref: ImageReference, d: string, b: string)
    requires Storable(d) && Storable(b)
    ensures Transferable(OneImage(ref.reference, d, b), ref)
  {
    var reply := Reply(d, Image, Parsed("", [], Descriptor(b, 1), []), 1);
    var reg := OneImage(ref.reference, d, b);
    OneImageReads(reply, d, b);
    StorableParses(d);
    StorableParses(b);
    hide Storable, Children, Blobs, WellFormedReply, ParseDigest, Reachable, RegistryGraph, Consistent, Mirrorable;
    hide WellFormedImage, Acyclic;
    ServesOne(reg, ref.reference, reply, b);
  }

  lemma StorableParses(d: string)
    requires Storable(d)
    ensures ParseDigest(d).Success?
  {
    hide ParseDigest;
  }

  /** A registry with one childless answer under one or two references. */
  lemma ServesOne(reg: Registry, tag: string, reply: Reply, b: string)
    requires reg == map[tag := reply, reply.digest := reply]
    requires Children(reply) == {} && Blobs(reply) == {b} && WellFormedReply(reply)
    requires Storable(reply.digest) && Storable(b) && ParseDigest(reply.digest).Success? && ParseDigest(b).Success?
    ensures Consistent(reg) && Mirrorable(reg, reply.digest) && WellFormedImage(reg, reply.digest)
    ensures Acyclic(RegistryGraph(reg)) && FetchManifest(reg, tag).Success?
  {
    hide Children, Blobs, WellFormedReply, Storable, ParseDigest, Acyclic, ReachableFrom;
    var d := reply.digest;
    assert forall k | k in reg :: reg[k] == reply;
    OnlyItself(RegistryGraph(reg), d);
    assert Reachable(reg, d) == {d};
    hide Reachable, RegistryGraph;
    forall x | IsBlobOf(reg, d, x) ensures x == b {
      var u :| u in Reachable(reg, d) && x in Blobs(reg[u]);
    }
  }

  lemma OneImageReads(reply: Reply, d: string, b: string)
    requires reply == Reply(d, Image, Parsed("", [], Descriptor(b, 1), []), 1) && Storable(b)
    ensures Children(reply) == {} && Blobs(reply) == {b} && WellFormedReply(reply)
  {
    CanonicalReadersAgree(b);
    hide ParseDigest, Canonical, SplitDigest, TrimSpace;
    assert BlobDescriptors(reply.body) == [Descriptor(b, 1)];
    assert Digests([Descriptor(b, 1)]) == {b};
    assert Digests([]) == {};
  }

  lemma FirstHasChild(g: Graph, p: seq<Digest>)
    requires IsPath(g, p) && |p| > 1
    ensures p[0] in g && g[p[0]] != {}
  {
    assert p[1] in g[p[0]];
  }

  lemma OnlyItself(g: Graph, d: Digest)
    requires d in g && forall k | k in g :: g[k] == {}
    ensures Acyclic(g) && ReachableFrom(g, d) == {d}
  {
    forall p | IsPath(g, p) ensures |p| == 1 {
      if |p| > 1 { FirstHasChild(g, p); }
    }
    ReachesItself(g, d);
    forall v | v in ReachableFrom(g, d) ensures v == d {
      var p :| IsPath(g, p) && p[0] == d && p[|p| - 1] == v;
    }
  }

  lemma LoadedIsCanonical(reg: Registry, root: Digest, b: Bundle)
    requires root in RegistryGraph(reg) && Mirrorable(reg, root) && WellFormedImage(reg, root)
    requires LocalGraph(b.manifests) == Reached(RegistryGraph(reg), root)
    requires forall d | d in b.manifests :: d in reg && AsSet(b.manifests[d].blobs) == Blobs(reg[d])
    ensures CanonicalBundle(b) && !MissingChild(b)
  {
    hide Canonical;
    hide ParseDigest;
    var g, ms := RegistryGraph(reg), b.manifests;
    LoadedIsRooted(g, root, ms);
    forall d, c | d in ms && c in ms[d].children ensures c in ms && Canonical(c) {
      assert c in LocalGraph(ms)[d] && LocalGraph(ms)[d] == g[d] == Children(reg[d]);
      ChildReachable(reg, root, d, c);
    }
    forall d, x | d in ms && x in ms[d].blobs ensures Canonical(x) {
      assert x in AsSet(ms[d].blobs);
      assert IsBlobOf(reg, root, x);
    }
  }

  lemma ChildReachable(reg: Registry, root: Digest, d: Digest, c: Digest)
    requires Mirrorable(reg, root) && d in Reachable(reg, root) && c in Children(reg[d])
    ensures c in Reachable(reg, root)
  {
    hide ParseDigest;
    ReachesEnds(RegistryGraph(reg), root, d);
    assert FetchManifest(reg, c).Success?;
    ReachesThenEdge(RegistryGraph(reg), root, d, c);
  }

  lemma CanBeLaidOut(ref: ImageReference, ms: Manifests, paths: map<string, BlobFile>, b: Bundle)
    requires IsBundle(ref, ms, paths, b) && CanonicalBundle(b)
    ensures AllSplit(b.order) && AllSplit(b.requiredBlobs)
    ensures b.rootDigest in b.manifests && forall d | d in b.order :: d in b.manifests
    ensures forall d | d in b.requiredBlobs :: d in b.blobPaths
  {
    SameManifests(ref, ms, paths, b);
    CanonicalNonEmpty(b);
    BundleLists(ref, ms, paths, b);
    CanonicalLists(b);
    hide IsBundle;
    hide CanonicalBundle;
    hide Canonical;
    hide SplitDigest;
    forall d | d in b.order || d in b.requiredBlobs ensures SplitDigest(d).Some? {
      CanonicalAddressInjective(d, d);
    }
    BundleBlobs(ref, ms, paths, b);
  }

  lemma BundleBlobs(ref: ImageReference, ms: Manifests, paths: map<string, BlobFile>, b: Bundle)
    requires IsBundle(ref, ms, paths, b)
    ensures forall d | d in b.requiredBlobs :: d in b.blobPaths
  {}

  lemma BundleContents(reg: Registry, ref: ImageReference, root: Digest, ms: Manifests, paths: map<string, BlobFile>,
                       b: Bundle)
    requires IsBundle(ref, ms, paths, b) && b.rootDigest == root
    requires ms.Keys == Reachable(reg, root) == ReachableFrom(LocalGraph(ms), root)
    requires forall x :: x in BlobsOf(ms, ms.Keys) <==> IsBlobOf(reg, root, x)
    ensures AsSet(b.order) == Reachable(reg, root)
    ensures forall x :: x in b.requiredBlobs <==> IsBlobOf(reg, root, x)
  {
    hide Reachable;
    hide IsBlobOf;
    hide BlobsOf;
    hide RootOf;
    hide ReachableFrom;
  }

  /** The contents of a bundle loaded from a complete mirror. */
  lemma LoadedBundle(reg: Registry, imageRoot: seq<string>, ref: ImageReference, root: Digest, plan: seq<Artifact>,
                     dir: ImageDir, b: Bundle)
    requires root in RegistryGraph(reg) && NamesNoOther(reg, ref, root)
    requires IsPlan(reg, imageRoot, root, plan) && WellFormedImage(reg, root) && Stores(imageRoot, reg, plan, dir)
    requires Mirrorable(reg, root)
    requires IsBundle(ref, LoadManifests(dir.manifests), BlobPaths(dir.blobs), b) && b.rootDigest == root
    ensures CanonicalBundle(b) && !MissingChild(b)
    ensures AsSet(b.order) == Reachable(reg, root)
    ensures forall x :: x in b.requiredBlobs <==> IsBlobOf(reg, root, x)
  {
    hide *;
    var ms := LoadManifests(dir.manifests);
    MirrorPushAgreement(reg, imageRoot, ref, root, plan, dir);
    BundleContents(reg, ref, root, ms, BlobPaths(dir.blobs), b);
    LoadedGraph(reg, imageRoot, root, plan, dir);
    SameManifests(ref, ms, BlobPaths(dir.blobs), b);
    LoadedIsCanonical(reg, root, b);
  }

  lemma TransferableParts(reg: Registry, ref: ImageReference, root: Digest)
    requires Transferable(reg, ref) && root == reg[ref.reference].digest
    ensures Consistent(reg) && FetchManifest(reg, ref.reference).Success? && Mirrorable(reg, root)
    ensures root in RegistryGraph(reg) && NamesNoOther(reg, ref, root)
    ensures WellFormedImage(reg, root) && Acyclic(RegistryGraph(reg))
  {
    ReferenceNamesRoot(reg, ref);
    hide ParseDigest, NamesNoOther;
  }

  lemma {:induction false} PlanLists(reg: Registry, imageRoot: seq<string>, root: Digest, plan: seq<Artifact>)
    requires IsPlan(reg, imageRoot, root, plan)
    ensures AsSet(DigestsOf(plan, true)) == Reachable(reg, root) && NoDuplicates(DigestsOf(plan, true))
    ensures forall x :: x in DigestsOf(plan, false) <==> IsBlobOf(reg, root, x)
  {
    hide NewArtifact;
    hide IsBlobOf;
  }

  lemma OrderHasNoDuplicates(ref: ImageReference, ms: Manifests, paths: map<string, BlobFile>, b: Bundle)
    requires IsBundle(ref, ms, paths, b)
    ensures NoDuplicates(b.order)
  {}

  lemma SameSize(a: seq<string>, b: seq<string>)
    requires NoDuplicates(a) && NoDuplicates(b) && AsSet(a) == AsSet(b)
    ensures |a| == |b|
  {
    ListSize(a, AsSet(a));
    ListSize(b, AsSet(b));
  }

  /** The loader succeeds on a stored plan and chooses the mirrored root. */
  method LoadMirror(reg: Registry, imageRoot: seq<string>, ref: ImageReference, ghost root: Digest, plan: seq<Artifact>,
                    dir: ImageDir) returns (b: Bundle)
    requires root in RegistryGraph(reg) && NamesNoOther(reg, ref, root)
    requires IsPlan(reg, imageRoot, root, plan) && WellFormedImage(reg, root) && Stores(imageRoot, reg, plan, dir)
    requires Mirrorable(reg, root) && Acyclic(RegistryGraph(reg))
    ensures IsBundle(ref, LoadManifests(dir.manifests), BlobPaths(dir.blobs), b) && b.rootDigest == root
  {
    hide *;
    AcyclicMirrorPushes(reg, imageRoot, ref, root, plan, dir);
    MirrorPushAgreement(reg, imageRoot, ref, root, plan, dir);
    var loaded := LoadLocalImageBundle(ref, dir);
    b := loaded.value;
    BundleRoot(ref, LoadManifests(dir.manifests), BlobPaths(dir.blobs), b);
  }

  lemma BundleRoot(ref: ImageReference, ms: Manifests, paths: map<string, BlobFile>, b: Bundle)
    requires IsBundle(ref, ms, paths, b)
    ensures RootOf(ref, ms) == Some(b.rootDigest)
  {}

  lemma LayoutRoot(b: Bundle, layout: Layout)
    requires IsLayout(b, layout)
    ensures layout.rootDigest == b.rootDigest
  {
    hide SplitDigest;
  }

  /**
   * Mirroring an image into an empty directory and pushing it from there succeeds for every transferable image, and
   * carries over the root, every reachable manifest and every blob, in a layout with no dangling descriptor.
   */
  method MirrorThenPush(reg: Registry, imageRoot: seq<string>, ref: ImageReference)
    returns (plan: seq<Artifact>, b: Bundle, layout: Layout)
    requires Transferable(reg, ref)
    ensures IsPlan(reg, imageRoot, reg[ref.reference].digest, plan)
    ensures b.rootDigest == layout.rootDigest == reg[ref.reference].digest
    ensures AsSet(b.order) == AsSet(DigestsOf(plan, true)) && |b.order| == |DigestsOf(plan, true)|
    ensures forall x :: x in b.requiredBlobs <==> x in DigestsOf(plan, false)
    ensures ClosedLayout(b, layout)
  {
    ghost var root := reg[ref.reference].digest;
    hide *;
    TransferableParts(reg, ref, root);
    var planned := PlanImage(reg, imageRoot, ref.reference);
    plan := planned.value;
    StorePlanStores(reg, imageRoot, root, plan);
    var dir := StorePlan(reg, plan);
    b := LoadMirror(reg, imageRoot, ref, root, plan, dir);
    ghost var ms, paths := LoadManifests(dir.manifests), BlobPaths(dir.blobs);
    LoadedBundle(reg, imageRoot, ref, root, plan, dir, b);
    PlanLists(reg, imageRoot, root, plan);
    OrderHasNoDuplicates(ref, ms, paths, b);
    SameSize(b.order, DigestsOf(plan, true));
    CanBeLaidOut(ref, ms, paths, b);
    var written := WriteOCILayout(b);
    layout := written.value;
    LayoutRoot(b, layout);
    LayoutClosure(ref, dir.manifests, paths, b, layout);
  }
}
