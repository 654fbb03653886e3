/**
 * From a list of image references to an image pushed from disk: planning every image, syncing the plan, and reading
 * back the directory of one image.
 */
module MirrorRun {
  import opened Text
  import opened ManifestGraph
  import opened SafePaths
  import opened ImageMirror
  import opened ImagePush
  import opened Agreement
  import opened ImagePaths
  import opened ImageFixpoint
  import opened SyncEngine
  import opened DownloadClient
  import opened SyncRun
  import opened MirrorDisk
  import ImageReferences

  // ---------------------------------------------------------------- planning every image

  /** The registries: what each answers for a reference, and the URL its repository is fetched from. */
  datatype Upstream = Upstream(answers: ImageReference -> Registry, base: ImageReference -> string)

  /** LocalImageID of a parsed reference. */
  function ImageIDOf(ref: ImageReference): string {
    LocalImageID(ref.registry, ref.repository, ref.reference, ref.isDigest)
  }

  function ImageRootOf(outputDir: string, ref: ImageReference): seq<string> {
    RelSegments(outputDir) + [ImageIDOf(ref)]
  }

  /** The image one reference contributes: none if it does not parse or cannot be planned. */
  ghost predicate IsPlannedFrom(up: Upstream, outputDir: string, raw: string, image: Option<PlannedImage>) {
    && (image.Some? ==>
          && ImageReferences.ParseReference(raw).Success?
          && var ref := ImageReferences.ParseReference(raw).value;
             && image.value.base == up.base(ref)
             && (forall a | a in image.value.artifacts :: PlacedIn(outputDir, ImageIDOf(ref), a))
             && (Consistent(up.answers(ref)) ==>
                   && FetchManifest(up.answers(ref), ref.reference).Success?
                   && IsPlan(up.answers(ref), ImageRootOf(outputDir, ref), up.answers(ref)[ref.reference].digest,
                             image.value.artifacts)))
    && (image.None? && ImageReferences.ParseReference(raw).Success? ==>
          var ref := ImageReferences.ParseReference(raw).value;
          Consistent(up.answers(ref)) && FetchManifest(up.answers(ref), ref.reference).Success? ==>
            !Mirrorable(up.answers(ref), up.answers(ref)[ref.reference].digest))
  }

  ghost predicate ArePlannedFrom(up: Upstream, outputDir: string, raws: seq<string>, images: seq<Option<PlannedImage>>)
    {
    |images| == |raws| && forall i | 0 <= i < |raws| :: IsPlannedFrom(up, outputDir, raws[i], images[i])
  }

  /** The loop over the configured images: a reference that does not parse or cannot be planned is passed over. */
  method PlanImages(up: Upstream, outputDir: string, raws: seq<string>) returns (images: seq<Option<PlannedImage>>)
    ensures ArePlannedFrom(up, outputDir, raws, images)
    ensures AllPlaced(outputDir, AllPlanned(images))
  {
    hide *;
    images := [];
    NonePlanned(up, outputDir, raws);
    for i := 0 to |raws|
      invariant ArePlannedFrom(up, outputDir, raws[..i], images)
    {
      var image := PlanOne(up, outputDir, raws[i]);
      OneMorePlanned(up, outputDir, raws, images, i, image);
      images := images + [image];
    }
    assert raws[..|raws|] == raws;
    PlannedArePlaced(up, outputDir, raws, images);
  }

  /** One turn of that loop. */
  method PlanOne(up: Upstream, outputDir: string, raw: string) returns (image: Option<PlannedImage>)
    ensures IsPlannedFrom(up, outputDir, raw, image)
  {
    hide ImageReferences.ParseReference, ParseDigest, NewArtifact, RelSegments, LocalImageID, Consistent, IsPlan, Mirrorable;
    var parsed := ImageReferences.Parse(raw);
    if parsed.Failure? {
      return None;
    }
    var ref := parsed.value;
    var planned := PlanImage(up.answers(ref), ImageRootOf(outputDir, ref), ref.reference);
    if planned.Failure? {
      return None;
    }
    image := Some(PlannedImage(planned.value, up.base(ref)));
    LocalImageIDIsName(ref.registry, ref.repository, ref.reference, ref.isDigest);
  }

  lemma NonePlanned(up: Upstream, outputDir: string, raws: seq<string>)
    ensures ArePlannedFrom(up, outputDir, raws[..0], [])
  {}

  lemma OneMorePlanned(up: Upstream, outputDir: string, raws: seq<string>, images: seq<Option<PlannedImage>>, i: nat,
                       image: Option<PlannedImage>)
    requires i < |raws| && ArePlannedFrom(up, outputDir, raws[..i], images)
    requires IsPlannedFrom(up, outputDir, raws[i], image)
    ensures ArePlannedFrom(up, outputDir, raws[..i + 1], images + [image])
  {
    hide IsPlannedFrom;
    forall j | 0 <= j < i + 1 ensures IsPlannedFrom(up, outputDir, raws[..i + 1][j], (images + [image])[j]) {
      if j < i { assert raws[..i + 1][j] == raws[..i][j]; }
    }
  }

  /** Everything planned is placed below the output directory. */
  lemma {:induction false} PlannedArePlaced(up: Upstream, outputDir: string, raws: seq<string>,
                                            images: seq<Option<PlannedImage>>)
    requires ArePlannedFrom(up, outputDir, raws, images)
    ensures AllPlaced(outputDir, AllPlanned(images))
  {
    hide IsPlannedFrom, PlacedIn;
    if images != [] {
      var n := |images| - 1;
      PlannedArePlaced(up, outputDir, raws[..n], images[..n]);
      if images[n].Some? { OnePlaced(up, outputDir, raws[n], images[n]); }
    }
  }

  lemma OnePlaced(up: Upstream, outputDir: string, raw: string, image: Option<PlannedImage>)
    requires IsPlannedFrom(up, outputDir, raw, image) && image.Some?
    ensures AllPlaced(outputDir, PlannedOf(image.value))
  {
    hide PlacedIn, ImageReferences.ParseReference, IsPlan, Consistent, ImageIDOf;
    forall p | p in PlannedOf(image.value) ensures Placed(outputDir, p.artifact) {
      assert p.artifact in image.value.artifacts;
    }
  }

  /**
   * Provider.Plan followed by a sync, a second plan and a validation, for any references, registries and downloads,
   * when no name of the output directory is blobs or manifests.
   */
  method MirrorAll(manager: SyncManager, name: string, outputDir: string, raws: seq<string>, up: Upstream, site: Site,
                   world: World, disk: Disk)
    returns (images: seq<Option<PlannedImage>>, first: seq<SyncAction>, report: SyncReport, after: Disk,
             second: seq<SyncAction>, validation: Result<ValidationReport>)
    requires manager.store.Valid() && site.cwd == manager.cwd && world.hash == site.hash
    requires IsAbs(site.cwd) && IsAbs(site.root)
    requires SafeJoinUnder(manager.cwd, manager.dataDir, name) == Success(site.root)
    requires CleanRelativePath(outputDir).Success? && PlainNames(RelSegments(outputDir))
    modifies manager`runs, manager`removed, manager.store
    ensures manager.store.Valid() && manager.removed == old(manager.removed)
    ensures ArePlannedFrom(up, outputDir, raws, images) && AllPlaced(outputDir, AllPlanned(images))
    ensures var t := Target(site.cwd, site.root, name);
            && after == DiskAfter(world, JobsOf(t, first), disk)
            && report.failed == FailuresOf(t, ReportsAfter(world, JobsOf(t, first), disk), first)
    ensures forall a | a in first && Fetches(a) && !ReportedFailed(report.failed, a.path) ::
              RecordDescribes(site, Target(site.cwd, site.root, name), after, manager.store.Records(), a)
    ensures IsMerged(site, disk, AllPlanned(images), first) && IsMerged(site, after, AllPlanned(images), second)
    ensures forall b | b in second :: b.kind.Skip? || ReportedFailed(report.failed, b.path)
    ensures validation.Success? ==>
              forall path, relPath | path in validation.value.invalid && IsPlanned(site, AllPlanned(images), path, relPath) ::
                ReportedFailed(report.failed, relPath)
  {
    hide *;
    images := PlanImages(up, outputDir, raws);
    PlainIsSafe(outputDir, AllPlanned(images));
    first, report, after, second, validation := PlanSyncPlan(manager, name, outputDir, images, site, world, disk);
    ghost var t := Target(site.cwd, site.root, name);
    ReportParts(t, ReportsAfter(world, JobsOf(t, first), disk), first);
  }

  // ---------------------------------------------------------------- one image among the planned ones

  lemma {:induction false} InSomeImage(images: seq<Option<PlannedImage>>, p: Planned) returns (j: nat)
    requires p in AllPlanned(images)
    ensures j < |images| && images[j].Some? && p in PlannedOf(images[j].value)
  {
    hide PlannedOf;
    var n := |images| - 1;
    if p in AllPlanned(images[..n]) {
      j := InSomeImage(images[..n], p);
    } else {
      j := n;
    }
  }

  lemma {:induction false} ImageIncluded(images: seq<Option<PlannedImage>>, j: nat, p: Planned)
    requires j < |images| && images[j].Some? && p in PlannedOf(images[j].value)
    ensures p in AllPlanned(images)
  {
    hide PlannedOf;
    var n := |images| - 1;
    if j < n {
      ImageIncluded(images[..n], j, p);
    }
  }

  /** The image of a reference has a directory of its own. */
  ghost predicate OwnDirectory(raws: seq<string>, i: nat)
    requires i < |raws| && ImageReferences.ParseReference(raws[i]).Success?
  {
    forall j | 0 <= j < |raws| && j != i && ImageReferences.ParseReference(raws[j]).Success? ::
      ImageIDOf(ImageReferences.ParseReference(raws[j]).value) != ImageIDOf(ImageReferences.ParseReference(raws[i]).value)
  }

  lemma OneDirectory(outputDir: string, imageID: string, other: string, a: Artifact)
    requires CleanRelativePath(outputDir).Success? && PlacedIn(outputDir, imageID, a) && PlacedIn(outputDir, other, a)
    ensures imageID == other
  {
    hide PlacedIn, CleanRelativePath, RelSegments;
    PlacedNames(outputDir, imageID, a);
    PlacedNames(outputDir, other, a);
    var n := |RelSegments(outputDir)|;
    assert a.path[n] == (RelSegments(outputDir) + [imageID])[n] == imageID;
    assert a.path[n] == (RelSegments(outputDir) + [other])[n] == other;
  }

  lemma ImageFacts(up: Upstream, outputDir: string, raw: string, image: Option<PlannedImage>)
    requires IsPlannedFrom(up, outputDir, raw, image) && image.Some?
    ensures ImageReferences.ParseReference(raw).Success?
    ensures var ref := ImageReferences.ParseReference(raw).value;
            image.value.base == up.base(ref) && forall a | a in image.value.artifacts :: PlacedIn(outputDir, ImageIDOf(ref), a)
  {
    hide ImageReferences.ParseReference, PlacedIn, ImageIDOf, IsPlan, Consistent;
  }

  /** What is planned into the directory of one image comes from its reference. */
  lemma {:induction false} FromOwnImage(up: Upstream, outputDir: string, raws: seq<string>,
                                        images: seq<Option<PlannedImage>>, i: nat, p: Planned)
    requires CleanRelativePath(outputDir).Success? && ArePlannedFrom(up, outputDir, raws, images)
    requires i < |raws| && ImageReferences.ParseReference(raws[i]).Success? && OwnDirectory(raws, i)
    requires p in AllPlanned(images)
    requires PlacedIn(outputDir, ImageIDOf(ImageReferences.ParseReference(raws[i]).value), p.artifact)
    ensures images[i].Some? && p.artifact in images[i].value.artifacts
    ensures p.url == UrlOf(up.base(ImageReferences.ParseReference(raws[i]).value), p.artifact)
  {
    hide ImageReferences.ParseReference, PlacedIn, ImageIDOf, IsPlannedFrom, CleanRelativePath, AllPlanned;
    var j := InSomeImage(images, p);
    assert IsPlannedFrom(up, outputDir, raws[j], images[j]);
    ImageFacts(up, outputDir, raws[j], images[j]);
    assert p.artifact in images[j].value.artifacts;
    OneDirectory(outputDir, ImageIDOf(ImageReferences.ParseReference(raws[i]).value),
                 ImageIDOf(ImageReferences.ParseReference(raws[j]).value), p.artifact);
  }

  /** Nothing is in the image's directory yet. */
  ghost predicate NothingThere(site: Site, disk: Disk, imageRoot: seq<string>) {
    forall names | Names(names) && imageRoot <= names :: FileAt(site, disk, names).None?
  }

  /** The image of a transferable reference is planned. */
  lemma ImagePlanned(up: Upstream, outputDir: string, raw: string, image: Option<PlannedImage>)
    requires IsPlannedFrom(up, outputDir, raw, image) && ImageReferences.ParseReference(raw).Success?
    requires Transferable(up.answers(ImageReferences.ParseReference(raw).value), ImageReferences.ParseReference(raw).value)
    ensures image.Some?
    ensures var ref := ImageReferences.ParseReference(raw).value;
            IsPlan(up.answers(ref), ImageRootOf(outputDir, ref), up.answers(ref)[ref.reference].digest,
                   image.value.artifacts)
  {
    hide ImageReferences.ParseReference, PlacedIn, ImageIDOf, IsPlan, RelSegments, Consistent, Mirrorable, WellFormedImage;
    hide FetchManifest, Acyclic;
  }

  /** Every artifact of an image is among those merged. */
  lemma {:induction false} AllIncluded(images: seq<Option<PlannedImage>>, i: nat, a: Artifact)
    requires i < |images| && images[i].Some? && a in images[i].value.artifacts
    ensures exists p :: p in AllPlanned(images) && p.artifact == a
  {
    hide AllPlanned;
    var k :| 0 <= k < |images[i].value.artifacts| && images[i].value.artifacts[k] == a;
    var p := PlannedOf(images[i].value)[k];
    ImageIncluded(images, i, p);
  }

  /** An image with a directory of its own takes part in the merged plan. */
  lemma {:induction false} ImageTakesPart(up: Upstream, outputDir: string, raws: seq<string>,
                                          images: seq<Option<PlannedImage>>, i: nat, site: Site, disk: Disk)
    requires CleanRelativePath(outputDir).Success? && ArePlannedFrom(up, outputDir, raws, images)
    requires AllPlaced(outputDir, AllPlanned(images)) && i < |raws| && images[i].Some?
    requires ImageReferences.ParseReference(raws[i]).Success? && OwnDirectory(raws, i)
    requires NothingThere(site, disk, ImageRootOf(outputDir, ImageReferences.ParseReference(raws[i]).value))
    ensures TakesPart(site, disk, outputDir, ImageIDOf(ImageReferences.ParseReference(raws[i]).value),
                      AllPlanned(images), images[i].value.artifacts)
  {
    var ref := ImageReferences.ParseReference(raws[i]).value;
    var plan := images[i].value.artifacts;
    LocalImageIDIsName(ref.registry, ref.repository, ref.reference, ref.isDigest);
    assert Name(ImageIDOf(ref));
    hide ImageReferences.ParseReference, PlacedIn, ImageIDOf, CleanRelativePath, AllPlanned, AllPlaced, Name, Names;
    hide RelSegments, FileAt, IsPlannedFrom, OwnDirectory, ArePlannedFrom;
    forall a | a in plan ensures exists p :: p in AllPlanned(images) && p.artifact == a { AllIncluded(images, i, a); }
    forall p | p in AllPlanned(images) && PlacedIn(outputDir, ImageIDOf(ref), p.artifact) ensures p.artifact in plan {
      FromOwnImage(up, outputDir, raws, images, i, p);
    }
  }

  /** What is served at the manifests' URLs reads as what the registry answers. */
  ghost predicate ServesBodies(up: Upstream, ref: ImageReference, served: string -> Bytes, reader: Reader) {
    forall d | d in up.answers(ref) ::
      reader(served(up.base(ref) + "/manifests/" + d)) == up.answers(ref)[d].body
  }

  lemma {:induction false} AnswersServed(up: Upstream, outputDir: string, raws: seq<string>,
                                         images: seq<Option<PlannedImage>>, i: nat, served: string -> Bytes,
                                         reader: Reader, root: Digest)
    requires CleanRelativePath(outputDir).Success? && ArePlannedFrom(up, outputDir, raws, images)
    requires i < |raws| && ImageReferences.ParseReference(raws[i]).Success? && OwnDirectory(raws, i)
    requires images[i].Some?
    requires var ref := ImageReferences.ParseReference(raws[i]).value;
             && ServesBodies(up, ref, served, reader) && WellFormedImage(up.answers(ref), root)
             && IsPlan(up.answers(ref), ImageRootOf(outputDir, ref), root, images[i].value.artifacts)
    ensures ServesAnswers(up.answers(ImageReferences.ParseReference(raws[i]).value), AllPlanned(images),
                          images[i].value.artifacts, served, reader)
  {
    var ref := ImageReferences.ParseReference(raws[i]).value;
    var reg, plan := up.answers(ref), images[i].value.artifacts;
    hide ImageReferences.ParseReference, PlacedIn, ImageIDOf, CleanRelativePath, AllPlanned, IsPlan, WellFormedImage;
    hide RelSegments, OwnDirectory, Storable, NewArtifact, Consistent;
    assert IsPlannedFrom(up, outputDir, raws[i], images[i]);
    ImageFacts(up, outputDir, raws[i], images[i]);
    hide IsPlannedFrom, ArePlannedFrom;
    forall p | p in AllPlanned(images) && p.artifact in plan && p.artifact.isManifest
      ensures p.artifact.digest in reg && reader(served(p.url)) == reg[p.artifact.digest].body
    {
      PlannedDigests(reg, ImageRootOf(outputDir, ref), root, plan, p.artifact);
      FromOwnImage(up, outputDir, raws, images, i, p);
    }
  }

  lemma NothingReported(failed: seq<FailedFile>, plan: seq<Artifact>)
    requires failed == []
    ensures NothingFailed(failed, plan)
  {
    forall a | a in plan ensures !ReportedFailed(failed, RelPath(a)) { NoneFailed(failed, RelPath(a)); }
  }

  lemma {:induction false} IsMirrored(site: Site, t: Target, world: World, before: Disk, outputDir: string,
                                      imageID: string, all: seq<Planned>, plan: seq<Artifact>, actions: seq<SyncAction>,
                                      served: string -> Bytes)
    requires IsAbs(site.cwd) && t.cwd == site.cwd && t.root == site.root
    requires TakesPart(site, before, outputDir, imageID, all, plan) && IsMerged(site, before, all, actions)
    requires HonestWorld(world, JobsOf(t, actions), served)
    requires NothingFailed(FailuresOf(t, ReportsAfter(world, JobsOf(t, actions), before), actions), plan)
    ensures Mirrored(site, t, world, before, outputDir, imageID, all, plan, actions, served)
  {}

  lemma RootNames(outputDir: string, ref: ImageReference)
    requires CleanRelativePath(outputDir).Success?
    ensures Names(ImageRootOf(outputDir, ref))
  {
    CleanRelativePathMeaning(outputDir);
    LocalImageIDIsName(ref.registry, ref.repository, ref.reference, ref.isDigest);
    hide CleanRelativePath, RelSegments, LocalImageID;
  }

  /** The layout push makes of a directory, when there is one. */
  method PushFrom(ref: ImageReference, dir: ImageDir) returns (b: Option<Bundle>, layout: Option<Layout>)
    ensures var ms, paths := LoadManifests(dir.manifests), BlobPaths(dir.blobs);
            && (b.Some? <==> RootOf(ref, ms).Some? && BlobsPresent(ms, paths, RootOf(ref, ms).value))
            && (b.Some? ==> IsBundle(ref, ms, paths, b.value))
            && (layout.Some? <==> b.Some? && AllSplit(b.value.order) && AllSplit(b.value.requiredBlobs))
            && (layout.Some? ==> IsLayout(b.value, layout.value))
  {
    hide RootOf, LoadManifests, BlobPaths, SplitDigest, HoldsBlob, HoldsManifest, AllSplit;
    b, layout := None, None;
    var loaded := LoadLocalImageBundle(ref, dir);
    if loaded.Failure? {
      return;
    }
    b := Some(loaded.value);
    BundleIsWhole(ref, LoadManifests(dir.manifests), BlobPaths(dir.blobs), loaded.value);
    var written := WriteOCILayout(loaded.value);
    if written.Success? {
      layout := Some(written.value);
    }
  }

  lemma BundleIsWhole(ref: ImageReference, ms: Manifests, paths: map<string, BlobFile>, b: Bundle)
    requires IsBundle(ref, ms, paths, b)
    ensures b.rootDigest in b.manifests && (forall d | d in b.order :: d in b.manifests)
    ensures forall x | x in b.requiredBlobs :: x in b.blobPaths
  {
    var g := LocalGraph(ms);
    hide RootOf, BlobsOf, LocalGraph;
    forall d | d in b.order ensures d in b.manifests {
      assert d in ReachableFrom(g, b.rootDigest);
      InLocalGraph(ms, d);
    }
  }

  lemma InLocalGraph(ms: Manifests, d: string)
    requires d in LocalGraph(ms)
    ensures d in ms
  {}

  /** What carrying an image over whole means for what push makes of it. */
  ghost predicate CarriedOver(plan: seq<Artifact>, root: Digest, b: Bundle, layout: Layout) {
    && b.rootDigest == layout.rootDigest == root
    && AsSet(b.order) == AsSet(DigestsOf(plan, true)) && |b.order| == |DigestsOf(plan, true)|
    && (forall x :: x in b.requiredBlobs <==> x in DigestsOf(plan, false))
    && ClosedLayout(b, layout)
  }

  /** A complete mirror of a transferable image is pushed whole. */
  lemma StoredIsPushed(reg: Registry, imageRoot: seq<string>, ref: ImageReference, root: Digest, plan: seq<Artifact>,
                       dir: ImageDir, b: Option<Bundle>, layout: Option<Layout>)
    requires Transferable(reg, ref) && root == reg[ref.reference].digest
    requires IsPlan(reg, imageRoot, root, plan) && Stores(imageRoot, reg, plan, dir)
    requires var ms, paths := LoadManifests(dir.manifests), BlobPaths(dir.blobs);
             && (b.Some? <==> RootOf(ref, ms).Some? && BlobsPresent(ms, paths, RootOf(ref, ms).value))
             && (b.Some? ==> IsBundle(ref, ms, paths, b.value))
             && (layout.Some? <==> b.Some? && AllSplit(b.value.order) && AllSplit(b.value.requiredBlobs))
             && (layout.Some? ==> IsLayout(b.value, layout.value))
    ensures b.Some? && layout.Some? && CarriedOver(plan, root, b.value, layout.value)
  {
    hide *;
    var ms, paths := LoadManifests(dir.manifests), BlobPaths(dir.blobs);
    TransferableParts(reg, ref, root);
    AcyclicMirrorPushes(reg, imageRoot, ref, root, plan, dir);
    MirrorPushAgreement(reg, imageRoot, ref, root, plan, dir);
    BundleRoot(ref, ms, paths, b.value);
    LoadedBundle(reg, imageRoot, ref, root, plan, dir, b.value);
    PlanLists(reg, imageRoot, root, plan);
    OrderHasNoDuplicates(ref, ms, paths, b.value);
    SameSize(b.value.order, DigestsOf(plan, true));
    CanBeLaidOut(ref, ms, paths, b.value);
    LayoutRoot(b.value, layout.value);
    LayoutClosure(ref, dir.manifests, paths, b.value, layout.value);
    IsCarriedOver(plan, root, b.value, layout.value);
  }

  lemma {:induction false} IsCarriedOver(plan: seq<Artifact>, root: Digest, b: Bundle, layout: Layout)
    requires b.rootDigest == layout.rootDigest == root
    requires AsSet(b.order) == AsSet(DigestsOf(plan, true)) && |b.order| == |DigestsOf(plan, true)|
    requires forall x :: x in b.requiredBlobs <==> x in DigestsOf(plan, false)
    requires ClosedLayout(b, layout)
    ensures CarriedOver(plan, root, b, layout)
  {}

  /**
   * Mirroring images and pushing one of them, by way of the disk. If its reference is transferable and has a directory
   * of its own that was empty, if every download met an honest server and none is reported as failed, then what is read
   * back from the directory is pushed whole: root, every manifest, every blob, no dangling descriptor.
   */
  method MirrorAndPush(manager: SyncManager, name: string, outputDir: string, raws: seq<string>, up: Upstream,
                       site: Site, world: World, disk: Disk, i: nat, reader: Reader, ghost served: string -> Bytes)
    returns (images: seq<Option<PlannedImage>>, first: seq<SyncAction>, report: SyncReport, b: Option<Bundle>,
             layout: Option<Layout>)
    requires manager.store.Valid() && site.cwd == manager.cwd && world.hash == site.hash
    requires IsAbs(site.cwd) && IsAbs(site.root)
    requires SafeJoinUnder(manager.cwd, manager.dataDir, name) == Success(site.root)
    requires CleanRelativePath(outputDir).Success? && PlainNames(RelSegments(outputDir))
    requires i < |raws| && ImageReferences.ParseReference(raws[i]).Success? && OwnDirectory(raws, i)
    requires var ref := ImageReferences.ParseReference(raws[i]).value;
             && Transferable(up.answers(ref), ref) && ServesBodies(up, ref, served, reader)
             && NothingThere(site, disk, ImageRootOf(outputDir, ref))
    modifies manager`runs, manager`removed, manager.store
    ensures ArePlannedFrom(up, outputDir, raws, images) && images[i].Some?
    ensures report.failed == [] && HonestWorld(world, JobsOf(Target(site.cwd, site.root, name), first), served) ==>
              var ref := ImageReferences.ParseReference(raws[i]).value;
              && b.Some? && layout.Some?
              && CarriedOver(images[i].value.artifacts, up.answers(ref)[ref.reference].digest, b.value, layout.value)
  {
    hide *;
    var after: Disk, second: seq<SyncAction>, validation: Result<ValidationReport>;
    images, first, report, after, second, validation := MirrorAll(manager, name, outputDir, raws, up, site, world, disk);
    var parsed := ImageReferences.Parse(raws[i]);
    var ref := parsed.value;
    ghost var t, reg := Target(site.cwd, site.root, name), up.answers(ref);
    OwnImage(up, outputDir, raws, images, i);
    ImagePlanned(up, outputDir, raws[i], images[i]);
    RootNames(outputDir, ref);
    var dir := ListImage(site, after, ImageRootOf(outputDir, ref), reader);
    b, layout := PushFrom(ref, dir);
    if report.failed == [] && HonestWorld(world, JobsOf(t, first), served) {
      IsServed(reg, ref);
      ghost var plan, root, all := images[i].value.artifacts, reg[ref.reference].digest, AllPlanned(images);
      TransferableParts(reg, ref, root);
      ImageTakesPart(up, outputDir, raws, images, i, site, disk);
      NothingReported(report.failed, plan);
      IsMirrored(site, t, world, disk, outputDir, ImageIDOf(ref), all, plan, first, served);
      AnswersServed(up, outputDir, raws, images, i, served, reader, root);
      RootIs(outputDir, ref);
      SyncStores(site, t, world, disk, outputDir, ImageIDOf(ref), all, plan, first, served, reg, root, reader, dir);
      StoredIsPushed(reg, ImageRootOf(outputDir, ref), ref, root, plan, dir, b, layout);
    }
  }

  lemma OwnImage(up: Upstream, outputDir: string, raws: seq<string>, images: seq<Option<PlannedImage>>, i: nat)
    requires ArePlannedFrom(up, outputDir, raws, images) && i < |raws|
    ensures i < |images| && IsPlannedFrom(up, outputDir, raws[i], images[i])
  {
    hide IsPlannedFrom;
  }

  lemma IsServed(reg: Registry, ref: ImageReference)
    requires Transferable(reg, ref)
    ensures ref.reference in reg
  {
    hide Mirrorable, WellFormedImage, Acyclic, Consistent;
  }

  lemma RootIs(outputDir: string, ref: ImageReference)
    ensures ImageRootOf(outputDir, ref) == RelSegments(outputDir) + [ImageIDOf(ref)]
  {
    hide ImageIDOf, RelSegments;
  }
}
