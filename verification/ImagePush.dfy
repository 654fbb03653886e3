/** The push side: rebuild a mirrored image's manifest graph from disk, order it, and lay it out for a registry copy. */
module ImagePush {
  import opened Text
  import opened ManifestGraph
  import opened ImageDocs
  import ImageReferences

  /** A file manifests/<algo>/<name> of an image directory, name ending in ".json". */
  datatype ManifestFile = ManifestFile(algo: string, name: string, body: Body)

  /** A file blobs/<algo>/<hash>. */
  datatype BlobFile = BlobFile(algo: string, hash: string)

  /** An image directory as the two file listings the loader asks for, in listing order. */
  datatype ImageDir = ImageDir(manifests: seq<ManifestFile>, blobs: seq<BlobFile>)

  /** As ParseReference gives it; only the reference and its digest flag matter here. */
  type ImageReference = ImageReferences.ImageReference

  datatype LocalManifest =
    LocalManifest(digest: string, mediaType: string, body: Body, children: seq<string>, blobs: seq<string>)

  type Manifests = map<string, LocalManifest>

  ghost function LocalGraph(ms: Manifests): Graph {
    map d | d in ms :: set c | c in ms[d].children
  }

  function FileDigest(f: ManifestFile): string { f.algo + ":" + TrimSuffix(f.name, ".json") }

  function LoadManifest(f: ManifestFile): LocalManifest {
    LocalManifest(FileDigest(f), MediaType(f.body), f.body, ChildDigests(f.body), BlobDigests(f.body))
  }

  /** The manifests of a directory; the later of two files with one digest wins. */
  function LoadManifests(files: seq<ManifestFile>): Manifests {
    if files == [] then map[]
    else
      var n := |files| - 1;
      LoadManifests(files[..n])[FileDigest(files[n]) := LoadManifest(files[n])]
  }

  /** mapLocalBlobPaths */
  function BlobPaths(files: seq<BlobFile>): map<string, BlobFile> {
    if files == [] then map[]
    else
      var n := |files| - 1;
      var init := BlobPaths(files[..n]);
      var f := files[n];
      if f.algo == "" || f.hash == "" then init else init[f.algo + ":" + f.hash := f]
  }

  // ---------------------------------------------------------------- choosing the root

  predicate LooksLikeIndex(m: LocalManifest) {
    var mt := ToLower(m.mediaType);
    Contains(mt, "index") || Contains(mt, "manifest.list")
  }

  ghost function IndexSources(ms: Manifests): set<string> {
    set d | d in Sources(LocalGraph(ms)) && LooksLikeIndex(ms[d])
  }

  /**
   * The root a reference selects: the referenced digest when it is on disk; else the one manifest no other lists;
   * else the one index among those.
   */
  ghost function RootOf(ref: ImageReference, ms: Manifests): Option<string> {
    if ref.isDigest && ref.reference in ms then Some(ref.reference)
    else if |Sources(LocalGraph(ms))| == 1 then Some(Only(Sources(LocalGraph(ms))))
    else if |IndexSources(ms)| == 1 then Some(Only(IndexSources(ms)))
    else None
  }

  ghost function Only(s: set<string>): (x: string)
    requires |s| == 1
    ensures s == {x}
  {
    var x :| x in s;
    SingletonOnly(s, x);
    x
  }

  lemma SingletonOnly(s: set<string>, x: string)
    requires |s| == 1 && x in s
    ensures s == {x}
  {
    assert |s - {x}| == 0;
  }

  ghost predicate ListedBy(ms: Manifests, parents: set<string>, c: string) {
    exists u :: u in parents && u in ms && c in ms[u].children
  }

  method CountChildren(inbound: map<string, nat>, children: seq<string>) returns (counted: map<string, nat>)
    ensures counted.Keys == inbound.Keys
    ensures forall c | c in inbound :: counted[c] > 0 <==> inbound[c] > 0 || c in children
  {
    counted := inbound;
    for i := 0 to |children|
      invariant counted.Keys == inbound.Keys
      invariant forall c | c in inbound :: counted[c] > 0 <==> inbound[c] > 0 || c in children[..i]
    {
      var child := children[i];
      assert children[..i + 1] == children[..i] + [child];
      if child in counted {
        counted := counted[child := counted[child] + 1];
      }
    }
    assert children[..|children|] == children;
  }

  method CountInbound(ms: Manifests) returns (inbound: map<string, nat>)
    ensures inbound.Keys == ms.Keys
    ensures forall c | c in ms :: inbound[c] > 0 <==> ListedBy(ms, ms.Keys, c)
  {
    inbound := map d | d in ms :: 0;
    var left := ms.Keys;
    while left != {}
      invariant left <= ms.Keys && inbound.Keys == ms.Keys
      invariant forall c | c in ms :: inbound[c] > 0 <==> ListedBy(ms, ms.Keys - left, c)
    {
      var d :| d in left;
      inbound := CountChildren(inbound, ms[d].children);
      ListedByOneMore(ms, ms.Keys - left, d);
      assert ms.Keys - (left - {d}) == ms.Keys - left + {d};
      left := left - {d};
    }
    assert ms.Keys - {} == ms.Keys;
  }

  lemma ListedByOneMore(ms: Manifests, parents: set<string>, d: string)
    requires d in ms
    ensures forall c :: ListedBy(ms, parents + {d}, c) <==> ListedBy(ms, parents, c) || c in ms[d].children
  {
    forall c | c in ms[d].children ensures ListedBy(ms, parents + {d}, c) {
      assert d in parents + {d};
    }
    forall c | ListedBy(ms, parents, c) ensures ListedBy(ms, parents + {d}, c) {
      var u :| u in parents && u in ms && c in ms[u].children;
      assert u in parents + {d};
    }
  }

  lemma ListedIsParent(ms: Manifests, c: string)
    requires c in ms
    ensures ListedBy(ms, ms.Keys, c) <==> c !in Sources(LocalGraph(ms))
  {
    var g := LocalGraph(ms);
    if ListedBy(ms, ms.Keys, c) {
      var u :| u in ms.Keys && u in ms && c in ms[u].children;
      assert u in g && c in g[u];
    }
    if HasParent(g, c) {
      var u :| u in g && c in g[u];
      assert u in ms.Keys && c in ms[u].children;
    }
  }

  /** The manifests with no inbound reference: the candidates of chooseRootDigest. */
  method RootCandidates(ms: Manifests) returns (candidates: seq<string>)
    ensures NoDuplicates(candidates)
    ensures forall d :: d in candidates <==> d in Sources(LocalGraph(ms))
  {
    var inbound := CountInbound(ms);
    forall c | c in ms ensures inbound[c] == 0 <==> c in Sources(LocalGraph(ms)) {
      ListedIsParent(ms, c);
    }
    hide *;
    candidates := [];
    SourcesPresent(ms);
    var keys := ms.Keys;
    while keys != {}
      invariant keys <= ms.Keys && NoDuplicates(candidates)
      invariant forall d :: d in candidates <==> d in ms.Keys - keys && inbound[d] == 0
    {
      var d :| d in keys;
      if inbound[d] == 0 {
        NoDuplicatesPush(candidates, d);
        candidates := candidates + [d];
      }
      keys := keys - {d};
    }
  }

  lemma SourcesPresent(ms: Manifests)
    ensures Sources(LocalGraph(ms)) <= ms.Keys
    ensures NoDuplicates<string>([])
  {}

  lemma NoDuplicatesPush(list: seq<string>, d: string)
    requires NoDuplicates(list) && d !in list
    ensures NoDuplicates(list + [d])
  {}

  lemma {:induction false} ListSize(list: seq<string>, s: set<string>)
    requires NoDuplicates(list) && forall x :: x in list <==> x in s
    ensures |list| == |s|
  {
    if list == [] {
      assert s == {};
    } else {
      var n := |list| - 1;
      ListSize(list[..n], s - {list[n]});
    }
  }

  /** chooseRootDigest */
  method ChooseRootDigest(ref: ImageReference, ms: Manifests) returns (r: Result<string>)
    ensures r.Success? <==> RootOf(ref, ms).Some?
    ensures r.Success? ==> RootOf(ref, ms) == Some(r.value) && r.value in ms
  {
    if ref.isDigest && ref.reference in ms {
      return Success(ref.reference);
    }
    var candidates := RootCandidates(ms);
    ListSize(candidates, Sources(LocalGraph(ms)));
    if |candidates| == 1 {
      SingletonOnly(Sources(LocalGraph(ms)), candidates[0]);
      return Success(candidates[0]);
    }
    if |candidates| == 0 {
      assert IndexSources(ms) == {};
      return Failure("unable to determine root manifest (no root candidates)");
    }
    var indexes := IndexCandidates(ms, candidates);
    ListSize(indexes, IndexSources(ms));
    if |indexes| == 1 {
      SingletonOnly(IndexSources(ms), indexes[0]);
      return Success(indexes[0]);
    }
    return Failure("unable to determine root manifest (multiple candidates)");
  }

  method IndexCandidates(ms: Manifests, candidates: seq<string>) returns (indexes: seq<string>)
    requires NoDuplicates(candidates) && forall d | d in candidates :: d in ms
    ensures NoDuplicates(indexes)
    ensures forall d :: d in indexes <==> d in candidates && LooksLikeIndex(ms[d])
  {
    indexes := [];
    for i := 0 to |candidates|
      invariant NoDuplicates(indexes)
      invariant forall d :: d in indexes <==> d in candidates[..i] && LooksLikeIndex(ms[d])
    {
      assert candidates[..i + 1] == candidates[..i] + [candidates[i]];
      if LooksLikeIndex(ms[candidates[i]]) {
        indexes := indexes + [candidates[i]];
      }
    }
    assert candidates[..|candidates|] == candidates;
  }

  // ---------------------------------------------------------------- an index among several sources

  /** The two index types and the two image types, in any letter case. */
  predicate IndexType(mediaType: string) { ToLower(mediaType) == OCI_INDEX || ToLower(mediaType) == DOCKER_LIST }

  predicate ImageType(mediaType: string) { ToLower(mediaType) == OCI_MANIFEST || ToLower(mediaType) == DOCKER_MANIFEST }

  lemma IndexTypesSayIndex()
    ensures Contains(OCI_INDEX, "index") && Contains(DOCKER_LIST, "manifest.list")
  {
    assert OccursAt(OCI_INDEX, "index", 26);
    assert OccursAt(DOCKER_LIST, "manifest.list", 36);
  }

  /** Text without an x, and without an l after a dot: neither word an index type is known by occurs in it. */
  predicate Innocent(s: string) { 'x' !in s && forall i | 0 <= i < |s| - 1 && s[i] == '.' :: s[i + 1] != 'l' }

  lemma InnocentText(s: string)
    requires Innocent(s)
    ensures !Contains(s, "index") && !Contains(s, "manifest.list")
  {
    forall i: nat | i <= |s| ensures !OccursAt(s, "index", i) {
      if i + 5 <= |s| { assert s[i..i + 5][4] == s[i + 4] && s[i + 4] in s; }
    }
    forall i: nat | i <= |s| ensures !OccursAt(s, "manifest.list", i) {
      if i + 13 <= |s| { assert s[i..i + 13][8] == s[i + 8] && s[i..i + 13][9] == s[i + 9]; }
    }
  }

  lemma InnocentJoin(a: string, b: string)
    requires Innocent(a) && Innocent(b) && (b == [] || b[0] != 'l')
    ensures Innocent(a + b)
  {}

  lemma InnocentPieces()
    ensures Innocent("application/vnd.") && Innocent("oci.image.") && Innocent("manifest.v1+json")
    ensures Innocent("docker.distribution.") && Innocent("manifest.v2+json")
  {}

  lemma OciJoined()
    ensures OCI_MANIFEST == "application/vnd." + "oci.image." + "manifest.v1+json"
  {
    assert "application/vnd." + "oci.image." == "application/vnd.oci.image.";
  }

  lemma DockerJoined()
    ensures DOCKER_MANIFEST == "application/vnd." + "docker.distribution." + "manifest.v2+json"
  {
    assert "application/vnd." + "docker.distribution." == "application/vnd.docker.distribution.";
  }

  lemma ThreePieces(a: string, b: string, c: string)
    requires Innocent(a) && Innocent(b) && Innocent(c) && b != [] && b[0] != 'l' && c != [] && c[0] != 'l'
    ensures Innocent(a + b + c)
  {
    InnocentJoin(a, b);
    InnocentJoin(a + b, c);
  }

  lemma ImageTypesAreInnocent()
    ensures Innocent(OCI_MANIFEST) && Innocent(DOCKER_MANIFEST)
  {
    hide Innocent;
    InnocentPieces();
    OciJoined();
    DockerJoined();
    ThreePieces("application/vnd.", "oci.image.", "manifest.v1+json");
    ThreePieces("application/vnd.", "docker.distribution.", "manifest.v2+json");
  }

  lemma TypesTell(m: LocalManifest)
    ensures IndexType(m.mediaType) ==> LooksLikeIndex(m)
    ensures ImageType(m.mediaType) ==> !LooksLikeIndex(m)
  {
    IndexTypesSayIndex();
    ImageTypesAreInnocent();
    hide Contains, Innocent, ToLower;
    InnocentText(OCI_MANIFEST);
    InnocentText(DOCKER_MANIFEST);
  }

  /**
   * When nothing lists several manifests, and one of them is an index and the others are images, the index is the
   * root: a tag that named an image and now names an index leaves the image behind and is still pushed as it is now.
   */
  lemma IndexChosen(ref: ImageReference, ms: Manifests, d: string)
    requires !ref.isDigest && d in Sources(LocalGraph(ms)) && IndexType(ms[d].mediaType)
    requires forall x | x in Sources(LocalGraph(ms)) && x != d :: ImageType(ms[x].mediaType)
    ensures RootOf(ref, ms) == Some(d)
  {
    hide LooksLikeIndex, IndexType, ImageType, HasParent;
    TypesTell(ms[d]);
    forall x | x in Sources(LocalGraph(ms)) && x != d ensures !LooksLikeIndex(ms[x]) { TypesTell(ms[x]); }
    assert IndexSources(ms) == {d};
    if |Sources(LocalGraph(ms))| == 1 {
      SingletonOnly(Sources(LocalGraph(ms)), d);
    }
  }

  /** Two indexes nothing lists leave the root undetermined. */
  lemma TwoIndexesRefused(ref: ImageReference, ms: Manifests, d: string, e: string)
    requires !ref.isDigest && d in Sources(LocalGraph(ms)) && e in Sources(LocalGraph(ms)) && d != e
    requires IndexType(ms[d].mediaType) && IndexType(ms[e].mediaType)
    ensures RootOf(ref, ms) == None
  {
    hide LooksLikeIndex, IndexType, HasParent;
    TypesTell(ms[d]);
    TypesTell(ms[e]);
    assert d in IndexSources(ms) && e in IndexSources(ms);
    if |Sources(LocalGraph(ms))| == 1 { SingletonOnly(Sources(LocalGraph(ms)), d); }
    if |IndexSources(ms)| == 1 { SingletonOnly(IndexSources(ms), d); }
  }

  /** A document that is an index: it says so, or says nothing and lists a child. */
  predicate IndexDocument(body: Body) {
    body.Parsed?
    && if TrimSpace(body.mediaType) == "" then exists m :: m in body.manifests && TrimSpace(m.digest) != ""
       else IndexType(TrimSpace(body.mediaType))
  }

  /** A document that is an image: it says so, or says nothing, lists no child and names a config or a layer. */
  predicate ImageDocument(body: Body) {
    body.Parsed?
    && if TrimSpace(body.mediaType) == "" then
         && (forall m | m in body.manifests :: TrimSpace(m.digest) == "")
         && exists b :: b in [body.config] + body.layers && TrimSpace(b.digest) != ""
       else ImageType(TrimSpace(body.mediaType))
  }

  lemma IndexLower()
    ensures ToLower(OCI_INDEX) == OCI_INDEX
  {
    hide ToLower;
    LowerFixed(OCI_INDEX);
  }

  lemma ManifestLower()
    ensures ToLower(OCI_MANIFEST) == OCI_MANIFEST
  {
    hide ToLower;
    LowerFixed(OCI_MANIFEST);
  }

  lemma DocumentTypes(body: Body)
    ensures IndexDocument(body) ==> IndexType(MediaType(body))
    ensures ImageDocument(body) ==> ImageType(MediaType(body))
  {
    IndexLower();
    ManifestLower();
    hide ToLower, TrimSpace;
    if body.Parsed? && TrimSpace(body.mediaType) == "" {
      if m :| m in body.manifests && TrimSpace(m.digest) != "" {
        var i :| 0 <= i < |body.manifests| && body.manifests[i] == m;
        assert TrimSpace(m.digest) in TrimmedDigests(body.manifests);
      } else {
        if TrimmedDigests(body.manifests) != [] { NoneTrimmed(body.manifests); }
        if b :| b in [body.config] + body.layers && TrimSpace(b.digest) != "" {
          var all := [body.config] + body.layers;
          assert b in all;
          var i :| 0 <= i < |all| && all[i] == b;
          assert TrimSpace(b.digest) in TrimmedDigests(all);
        }
      }
    }
  }

  lemma {:induction false} NoneTrimmed(ds: seq<Descriptor>)
    requires forall m | m in ds :: TrimSpace(m.digest) == ""
    ensures TrimmedDigests(ds) == []
  {
    hide TrimSpace;
    if ds != [] {
      NoneTrimmed(ds[..|ds| - 1]);
    }
  }

  lemma {:induction false} LoadedType(files: seq<ManifestFile>, d: string)
    requires d in LoadManifests(files)
    ensures LoadManifests(files)[d].mediaType == MediaType(LoadManifests(files)[d].body)
  {
    hide MediaType, FileDigest, ChildDigests, BlobDigests;
    var n := |files| - 1;
    if d != FileDigest(files[n]) { LoadedType(files[..n], d); }
  }

  /** The same from the documents on disk. */
  lemma {:induction false} IndexDocumentChosen(ref: ImageReference, files: seq<ManifestFile>, d: string)
    requires !ref.isDigest && d in Sources(LocalGraph(LoadManifests(files)))
    requires IndexDocument(LoadManifests(files)[d].body)
    requires forall x | x in Sources(LocalGraph(LoadManifests(files))) && x != d ::
               ImageDocument(LoadManifests(files)[x].body)
    ensures RootOf(ref, LoadManifests(files)) == Some(d)
  {
    var ms := LoadManifests(files);
    hide LoadManifests, IndexDocument, ImageDocument, IndexType, ImageType, HasParent, MediaType, RootOf;
    forall x | x in Sources(LocalGraph(ms)) ensures ms[x].mediaType == MediaType(ms[x].body) { LoadedType(files, x); }
    forall x | x in Sources(LocalGraph(ms))
      ensures IndexDocument(ms[x].body) ==> IndexType(ms[x].mediaType)
      ensures ImageDocument(ms[x].body) ==> ImageType(ms[x].mediaType)
    {
      DocumentTypes(ms[x].body);
    }
    IndexChosen(ref, ms, d);
  }

  // ---------------------------------------------------------------- post-order

  /**
   * Exactly the manifests reachable from root, each once, root last; and every present child stands before its parent
   * unless the child leads back to the parent.
   */
  ghost predicate IsPostOrder(g: Graph, root: Digest, order: seq<Digest>) {
    && NoDuplicates(order)
    && (forall d :: d in order <==> d in ReachableFrom(g, root))
    && (forall i, v | 0 <= i < |order| && order[i] in g && v in g[order[i]] && v in g ::
          v in order[..i] || Reaches(g, v, order[i]))
    && (order != [] ==> order[|order| - 1] == root)
  }

  /**
   * A depth-first walk from root in progress. Finished manifests are in order; open ones are seen and unfinished.
   */
  ghost predicate Walking(g: Graph, root: Digest, seen: set<Digest>, order: seq<Digest>, open: set<Digest>) {
    && NoDuplicates(order)
    && (forall d :: d in seen && d in g <==> d in order || d in open)
    && (forall d | d in order :: d in g && d !in open && Reaches(g, root, d))
    && (forall i, v | 0 <= i < |order| && v in g[order[i]] && v in g :: v in seen)
    && (forall i, v | 0 <= i < |order| && v in g[order[i]] && v in g ::
          v in order[..i] || Reaches(g, v, order[i]))
  }

  lemma OpenNode(g: Graph, root: Digest, seen: set<Digest>, order: seq<Digest>, open: set<Digest>, d: Digest)
    requires Walking(g, root, seen, order, open) && d in g && d !in seen
    ensures Walking(g, root, seen + {d}, order, open + {d}) && d !in open
  {}

  lemma SeeAbsent(g: Graph, root: Digest, seen: set<Digest>, order: seq<Digest>, open: set<Digest>, d: Digest)
    requires Walking(g, root, seen, order, open) && d !in g
    ensures Walking(g, root, seen + {d}, order, open)
  {}

  /** Finishing a node all of whose present children have been seen. */
  lemma FinishNode(g: Graph, root: Digest, seen: set<Digest>, order: seq<Digest>, open: set<Digest>, d: Digest)
    requires Walking(g, root, seen, order, open + {d}) && d in g && d !in open && d in seen
    requires Reaches(g, root, d)
    requires forall v | v in g[d] && v in g :: v in seen
    requires forall o | o in open :: Reaches(g, o, d)
    ensures Walking(g, root, seen, order + [d], open)
  {
    var order' := order + [d];
    ReachesItself(g, d);
    forall i, v | 0 <= i < |order'| && v in g[order'[i]] && v in g
      ensures v in order'[..i] || Reaches(g, v, order'[i])
    {
      assert order'[..i] == order[..i];
      if i == |order| && v !in order {
        assert v in open + {d};
      }
    }
  }

  lemma WalkComplete(g: Graph, root: Digest, seen: set<Digest>, order: seq<Digest>)
    requires Walking(g, root, seen, order, {}) && root in seen
    requires order != [] ==> order[|order| - 1] == root
    ensures IsPostOrder(g, root, order)
  {
    var finished := set x | x in order;
    forall d | d in ReachableFrom(g, root) ensures d in order {
      ReachesEnds(g, root, d);
      ClosedSetHoldsReachable(g, finished, root, d);
    }
  }

  /** The state buildManifestPostOrder's recursive closure shares between its calls. */
  class PostOrderWalk {
    const manifests: Manifests
    var seen: set<string>
    var order: seq<string>

    constructor (manifests: Manifests)
      ensures this.manifests == manifests && seen == {} && order == []
    {
      this.manifests := manifests;
      seen, order := {}, [];
    }

    ghost function Graph(): Graph { LocalGraph(manifests) }

    /** Visit a manifest; open holds the manifests whose visits enclose this one. */
    method Visit(digest: string, ghost root: string, ghost open: set<string>)
      requires Walking(Graph(), root, seen, order, open)
      requires digest in manifests ==> Reaches(Graph(), root, digest)
      requires forall o | o in open && digest in manifests :: Reaches(Graph(), o, digest)
      modifies this
      ensures Walking(Graph(), root, seen, order, open)
      ensures digest in seen && old(seen) <= seen && old(order) <= order
      ensures digest in old(seen) ==> seen == old(seen) && order == old(order)
      ensures digest in manifests && digest !in old(seen) ==> order != [] && order[|order| - 1] == digest
      ensures digest !in manifests ==> order == old(order)
      decreases manifests.Keys - seen
    {
      hide Walking, Reaches;
      ghost var g := Graph();
      if digest in seen {
        return;
      }
      seen := seen + {digest};
      if digest !in manifests {
        SeeAbsent(g, root, old(seen), order, open, digest);
        return;
      }
      OpenNode(g, root, old(seen), order, open, digest);
      var children := manifests[digest].children;
      for i := 0 to |children|
        invariant Walking(g, root, seen, order, open + {digest})
        invariant old(seen) + {digest} <= seen && old(order) <= order
        invariant forall j | 0 <= j < i && children[j] in manifests :: children[j] in seen
      {
        var child := children[i];
        if child in manifests {
          assert child in g[digest];
          ReachesItself(g, digest);
          forall o | o in open + {digest} ensures Reaches(g, o, child) {
            ReachesThenEdge(g, o, digest, child);
          }
          ReachesThenEdge(g, root, digest, child);
          assert digest in manifests.Keys - old(seen);
          Visit(child, root, open + {digest});
        }
      }
      FinishNode(g, root, seen, order, open, digest);
      order := order + [digest];
    }
  }

  /** buildManifestPostOrder, on any finite graph, cyclic or not, whether or not root is present. */
  method BuildManifestPostOrder(root: string, ms: Manifests) returns (order: seq<string>)
    ensures IsPostOrder(LocalGraph(ms), root, order)
  {
    var walk := new PostOrderWalk(ms);
    if root in ms {
      ReachesItself(LocalGraph(ms), root);
    }
    walk.Visit(root, root, {});
    order := walk.order;
    WalkComplete(LocalGraph(ms), root, walk.seen, order);
  }

  /** Without cycles the order is topological: every present child stands strictly before its parent. */
  lemma AcyclicChildrenFirst(g: Graph, root: Digest, order: seq<Digest>, i: nat, v: Digest)
    requires Acyclic(g) && IsPostOrder(g, root, order)
    requires i < |order| && order[i] in g && v in g[order[i]] && v in g
    ensures v in order[..i]
  {
    if v !in order[..i] {
      EdgeBackIsCycle(g, v, order[i]);
    }
  }

  /** When the single root candidate of an acyclic image is chosen, the order lists every stored manifest. */
  lemma UniqueCandidateCoversAll(ms: Manifests, root: Digest, order: seq<Digest>)
    requires Acyclic(LocalGraph(ms)) && Sources(LocalGraph(ms)) == {root}
    requires IsPostOrder(LocalGraph(ms), root, order)
    ensures forall d :: d in order <==> d in ms
  {
    var g := LocalGraph(ms);
    forall d | d in ms ensures d in order {
      UniqueSourceReachesAll(g, root, d);
    }
  }

  /** An acyclic image with a manifest on disk always has a root candidate. */
  lemma AcyclicHasCandidate(ms: Manifests)
    requires Acyclic(LocalGraph(ms)) && ms != map[]
    ensures Sources(LocalGraph(ms)) != {}
  {
    var d :| d in ms;
    assert d in LocalGraph(ms);
    AcyclicHasSource(LocalGraph(ms));
  }

  // ---------------------------------------------------------------- blobs, bundle and layout

  ghost function AsSet(list: seq<string>): set<string> { set d | d in list }

  ghost function BlobsOf(ms: Manifests, digests: set<string>): set<string> {
    set d, b | d in digests && d in ms && b in ms[d].blobs && b != "" :: b
  }

  /** collectRequiredBlobDigests, up to the final sort. */
  method CollectRequiredBlobDigests(order: seq<string>, ms: Manifests) returns (out: seq<string>)
    ensures NoDuplicates(out)
    ensures forall b :: b in out <==> b in BlobsOf(ms, AsSet(order))
  {
    out := [];
    var seen: set<string> := {};
    for i := 0 to |order|
      invariant NoDuplicates(out) && seen == AsSet(out)
      invariant seen == BlobsOf(ms, AsSet(order[..i]))
    {
      assert order[..i + 1] == order[..i] + [order[i]];
      if order[i] in ms {
        var blobs := ms[order[i]].blobs;
        ghost var before := seen;
        for j := 0 to |blobs|
          invariant NoDuplicates(out) && seen == AsSet(out)
          invariant seen == before + set b | b in blobs[..j] && b != ""
        {
          assert blobs[..j + 1] == blobs[..j] + [blobs[j]];
          if blobs[j] != "" && blobs[j] !in seen {
            seen := seen + {blobs[j]};
            out := out + [blobs[j]];
          }
        }
        assert blobs[..|blobs|] == blobs;
      }
      BlobsOfStep(ms, order, i);
    }
    assert order[..|order|] == order;
  }

  lemma BlobsOfStep(ms: Manifests, order: seq<string>, i: nat)
    requires i < |order|
    ensures BlobsOf(ms, AsSet(order[..i + 1]))
         == BlobsOf(ms, AsSet(order[..i]))
            + if order[i] in ms then set b | b in ms[order[i]].blobs && b != "" else {}
  {
    assert order[..i + 1] == order[..i] + [order[i]];
    assert AsSet(order[..i + 1]) == AsSet(order[..i]) + {order[i]};
  }

  datatype Bundle = Bundle(rootDigest: string, rootMediaType: string, manifests: Manifests, order: seq<string>,
                           requiredBlobs: seq<string>, blobPaths: map<string, BlobFile>)

  /** What manifests and blobs yield for a reference: the bundle's root, contents, order and blobs. */
  ghost predicate IsBundle(ref: ImageReference, ms: Manifests, paths: map<string, BlobFile>, b: Bundle) {
    && b.manifests == ms
    && b.blobPaths == paths
    && RootOf(ref, ms) == Some(b.rootDigest)
    && b.rootDigest in ms && b.rootMediaType == ms[b.rootDigest].mediaType
    && IsPostOrder(LocalGraph(ms), b.rootDigest, b.order)
    && NoDuplicates(b.requiredBlobs)
    && (forall x :: x in b.requiredBlobs <==> x in BlobsOf(ms, ReachableFrom(LocalGraph(ms), b.rootDigest)))
    && (forall x | x in b.requiredBlobs :: x in b.blobPaths)
  }

  /** Every blob a manifest reachable from the root names is on disk. */
  ghost predicate BlobsPresent(ms: Manifests, paths: map<string, BlobFile>, root: string) {
    BlobsOf(ms, ReachableFrom(LocalGraph(ms), root)) <= paths.Keys
  }

  /** The part of loadLocalImageBundle after the directory has been read. */
  method AssembleBundle(ref: ImageReference, ms: Manifests, paths: map<string, BlobFile>) returns (r: Result<Bundle>)
    ensures r.Success? <==> RootOf(ref, ms).Some? && BlobsPresent(ms, paths, RootOf(ref, ms).value)
    ensures r.Success? ==> IsBundle(ref, ms, paths, r.value)
  {
    var root := ChooseRootDigest(ref, ms);
    if root.Failure? {
      return Failure(root.error);
    }
    var order := BuildManifestPostOrder(root.value, ms);
    var required := CollectRequiredBlobDigests(order, ms);
    assert AsSet(order) == ReachableFrom(LocalGraph(ms), root.value);
    for i := 0 to |required|
      invariant forall j | 0 <= j < i :: required[j] in paths
    {
      if required[i] !in paths {
        assert required[i] in required;
        return Failure("required blob not found in local cache");
      }
    }
    r := Success(Bundle(root.value, ms[root.value].mediaType, ms, order, required, paths));
  }

  method ReadManifests(files: seq<ManifestFile>) returns (ms: Manifests)
    ensures ms == LoadManifests(files)
  {
    ms := map[];
    for i := 0 to |files|
      invariant ms == LoadManifests(files[..i])
    {
      assert files[..i + 1][..i] == files[..i];
      ms := ms[FileDigest(files[i]) := LoadManifest(files[i])];
    }
    assert files[..|files|] == files;
  }

  /** loadLocalImageBundle: succeeds exactly when a root is determined and every blob it needs is on disk. */
  method LoadLocalImageBundle(ref: ImageReference, dir: ImageDir) returns (r: Result<Bundle>)
    ensures var ms, paths := LoadManifests(dir.manifests), BlobPaths(dir.blobs);
            && (r.Success? <==> RootOf(ref, ms).Some? && BlobsPresent(ms, paths, RootOf(ref, ms).value))
            && (r.Success? ==> IsBundle(ref, ms, paths, r.value))
  {
    if dir.manifests == [] {
      NoManifestsNoRoot(ref);
      return Failure("no manifest files found");
    }
    var ms := ReadManifests(dir.manifests);
    r := AssembleBundle(ref, ms, BlobPaths(dir.blobs));
  }

  lemma NoManifestsNoRoot(ref: ImageReference)
    ensures RootOf(ref, LoadManifests([])).None?
  {
    assert LocalGraph(map[]) == map[];
    assert Sources(map[]) == {};
    assert IndexSources(map[]) == {};
  }

  /** What a layout file holds: a manifest document or the bytes of a blob file. */
  datatype Content = Document(body: Body) | Data(file: BlobFile)

  /** blobs maps (algorithm, hash) to the file blobs/<algorithm>/<hash> of an OCI layout. */
  datatype Layout = Layout(blobs: map<(string, string), Content>, rootDigest: string)

  ghost function Addresses(digests: seq<string>): set<(string, string)> {
    set d | d in digests && SplitDigest(d).Some? :: SplitDigest(d).value
  }

  /**
   * A layout holds exactly the bundle's manifests and blobs: at a blob's address the file found for it, and at any
   * other manifest's address its document.
   */
  ghost predicate IsLayout(b: Bundle, layout: Layout) {
    && layout.rootDigest == b.rootDigest
    && layout.blobs.Keys == Addresses(b.order) + Addresses(b.requiredBlobs)
    && (forall at | at in Addresses(b.order) && at !in Addresses(b.requiredBlobs) ::
          HoldsManifest(b, at, layout.blobs[at]))
    && (forall at | at in Addresses(b.requiredBlobs) :: HoldsBlob(b, at, layout.blobs[at]))
  }

  lemma AddressesTake(digests: seq<string>, i: nat)
    requires i < |digests| && SplitDigest(digests[i]).Some?
    ensures Addresses(digests[..i + 1]) == Addresses(digests[..i]) + {SplitDigest(digests[i]).value}
  {
    assert digests[..i + 1] == digests[..i] + [digests[i]];
  }

  ghost predicate AllSplit(digests: seq<string>) { forall d | d in digests :: SplitDigest(d).Some? }

  /** The document at an address is that of a manifest of the order with this address. */
  ghost predicate HoldsManifest(b: Bundle, at: (string, string), content: Content) {
    exists d :: d in b.order && d in b.manifests && SplitDigest(d) == Some(at)
             && content == Document(b.manifests[d].body)
  }

  /** The content at an address is the file of a required blob with this address. */
  ghost predicate HoldsBlob(b: Bundle, at: (string, string), content: Content) {
    exists d :: d in b.requiredBlobs && d in b.blobPaths && SplitDigest(d) == Some(at)
             && content == Data(b.blobPaths[d])
  }

  method WriteManifests(b: Bundle) returns (r: Result<map<(string, string), Content>>)
    requires forall d | d in b.order :: d in b.manifests
    ensures r.Success? <==> AllSplit(b.order)
    ensures r.Success? ==> r.value.Keys == Addresses(b.order)
    ensures r.Success? ==> forall at | at in r.value :: HoldsManifest(b, at, r.value[at])
  {
    hide SplitDigest;
    var blobs: map<(string, string), Content> := map[];
    for i := 0 to |b.order|
      invariant blobs.Keys == Addresses(b.order[..i])
      invariant forall j | 0 <= j < i :: SplitDigest(b.order[j]).Some?
      invariant forall at | at in blobs :: HoldsManifest(b, at, blobs[at])
    {
      var d := b.order[i];
      var at := SplitDigest(d);
      assert d in b.order;
      if at.None? {
        return Failure("invalid manifest digest");
      }
      AddressesTake(b.order, i);
      assert HoldsManifest(b, at.value, Document(b.manifests[d].body));
      blobs := blobs[at.value := Document(b.manifests[d].body)];
    }
    assert b.order[..|b.order|] == b.order;
    r := Success(blobs);
  }

  lemma BlobHeld(b: Bundle, d: string)
    requires d in b.requiredBlobs && d in b.blobPaths && SplitDigest(d).Some?
    ensures HoldsBlob(b, SplitDigest(d).value, Data(b.blobPaths[d]))
  {
    hide SplitDigest;
  }

  method CopyBlobs(b: Bundle, documents: map<(string, string), Content>)
    returns (r: Result<map<(string, string), Content>>)
    ensures r.Success? <==> AllSplit(b.requiredBlobs) && forall d | d in b.requiredBlobs :: d in b.blobPaths
    ensures r.Success? ==> r.value.Keys == documents.Keys + Addresses(b.requiredBlobs)
    ensures r.Success? ==> forall at | at in documents && at !in Addresses(b.requiredBlobs) ::
                             r.value[at] == documents[at]
    ensures r.Success? ==> forall at | at in Addresses(b.requiredBlobs) :: HoldsBlob(b, at, r.value[at])
  {
    hide SplitDigest, HoldsBlob;
    var blobs := documents;
    assert Addresses([]) == {};
    hide Addresses;
    for i := 0 to |b.requiredBlobs|
      invariant blobs.Keys == documents.Keys + Addresses(b.requiredBlobs[..i])
      invariant forall j | 0 <= j < i :: b.requiredBlobs[j] in b.blobPaths && SplitDigest(b.requiredBlobs[j]).Some?
      invariant forall at | at in documents && at !in Addresses(b.requiredBlobs[..i]) :: blobs[at] == documents[at]
      invariant forall at | at in Addresses(b.requiredBlobs[..i]) :: HoldsBlob(b, at, blobs[at])
    {
      var d := b.requiredBlobs[i];
      assert d in b.requiredBlobs;
      if d !in b.blobPaths {
        return Failure("missing source path for blob");
      }
      var at := SplitDigest(d);
      if at.None? {
        return Failure("invalid blob digest");
      }
      AddressesTake(b.requiredBlobs, i);
      BlobHeld(b, d);
      blobs := blobs[at.value := Data(b.blobPaths[d])];
    }
    assert b.requiredBlobs[..|b.requiredBlobs|] == b.requiredBlobs;
    r := Success(blobs);
  }

  /** writeOCILayout: writes exactly the addresses of the ordered manifests and the required blobs, or fails. */
  method WriteOCILayout(b: Bundle) returns (r: Result<Layout>)
    requires forall d | d in b.order :: d in b.manifests
    ensures r.Success? <==>
              && AllSplit(b.order) && AllSplit(b.requiredBlobs)
              && (forall d | d in b.requiredBlobs :: d in b.blobPaths)
              && b.rootDigest in b.manifests
    ensures r.Success? ==> IsLayout(b, r.value)
  {
    var documents := WriteManifests(b);
    if documents.Failure? {
      return Failure(documents.error);
    }
    var blobs := CopyBlobs(b, documents.value);
    if blobs.Failure? {
      return Failure(blobs.error);
    }
    if b.rootDigest !in b.manifests {
      return Failure("root manifest not found");
    }
    r := Success(Layout(blobs.value, b.rootDigest));
  }
}
